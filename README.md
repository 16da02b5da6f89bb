# dms list machinery, modelled in Dafny

This project models the core of the **dms** admin dashboard. The dashboard is a
React and Redux single-page application that manages documents and users. The
model covers the behaviour behind its two list screens and the shared pieces
they use:

- **The document list query** (`fetchDocuments`). It is a four-stage pipeline
  over the record list: a case-insensitive search over title, description and
  creator; an AND of `{ key, op, value }` filter clauses; a stable sort on one
  key in either direction; and a one-based page window with its pagination
  metadata. The lookup by id and the records built for a create and an update
  are modelled too.
- **The three Redux slices.**
  - The document store and the user store are classes whose methods are the
    reducers and the thunk lifecycle cases (pending, fulfilled, rejected).
    Each one changes exactly the fields its reducer assigns.
  - The auth store is a class that is proved against a pure reducer step. Its
    invariant is that the session is authenticated exactly when a user is set.
- **The two list screens** (`DocumentList`, `UserList`). Each handler is the
  sequence of dispatches the screen issues. The user screen folds its search
  into one more `name contains` clause.
- **The filter builder** (`FilterPanel`): the operator table, the operators
  each field type allows, the chip labels, and the draft clause with its
  add and remove operations.
- **The data table's decisions**: the next sort direction on a header click,
  row selection, the select-all flags, the status chip classes, the cell
  fallbacks, the header cells and the empty-row span.
- **The pagination caption** and the rows-per-page menu.
- **The sidebar's active-entry rule.**
- **The string helpers**: `truncateString`, `getFileExtension`,
  `getFileType`, `isValidEmail`, `isEmpty` and `isEmptyObject`.

JavaScript values are a `Value` datatype: undefined, null, booleans, integers,
strings and arrays. Records are maps from field names to values. The few
built-ins the code relies on are written out over sequences: `slice`,
`splice`, `>>> 0`, ASCII `toLowerCase`, `includes`, `indexOf`, `lastIndexOf`,
`trim`, `String(n)`, `parseInt` and `Number`. The sort is the stable sort that
ECMA-262 (10th edition, section 22.1.3.27) requires. It is modelled as an
insertion sort, and the model proves that this sort orders its result, permutes
its input and keeps tied records in input order.

Modules, one per file: `wrappers`, `js_builtins`, `js_values`, `seqs`,
`list_query`, `filtering`, `sorting`, `paging`, `document_query`,
`document_slice`, `document_list`, `user_slice`, `user_list`, `auth_slice`,
`filter_panel`, `data_table`, `pagination_bar`, `helpers`, `sidebar`.

## Model

| member | source | states |
|---|---|---|
| `Filtering.FieldMatch` | src/store/documentSlice.js:34-36 | One search field tested against the term: whether its lower-cased text contains the lower-cased term. It is None where the field is not a string, because `toLowerCase` then throws a TypeError. |
| `Filtering.SearchEval` | src/store/documentSlice.js:33-37 | The search callback reads title, description and creator from left to right and stops at the first match. `Filtering.SearchEvalMeaning` proves that whenever it returns, it agrees with `Filtering.MatchesSearch`. |
| `Filtering.MatchesSearch` | src/store/documentSlice.js:33-37 | The search condition stated on its own: one of the three search fields is text containing the term, ignoring case. The callback and the search stage are proved against it. |
| `Filtering.SearchAll` | src/store/documentSlice.js:33-37 | `filter` with the search callback. The whole call fails when the callback throws on any record. `Filtering.SearchAllMeaning` characterises it. |
| `Filtering.SearchStage` | src/store/documentSlice.js:29-38 | The search stage runs only for a non-empty search and lower-cases the term first. `Filtering.SearchStageMeaning` characterises it. |
| `Filtering.IsInert` | src/store/documentSlice.js:46 | A clause with a falsy key, a falsy operator or an undefined value does not constrain anything. |
| `Filtering.ClauseHolds` | src/store/documentSlice.js:44-62 | One clause tested against one record, operator by operator. Each operator's meaning is proved in `EqNeComplement`, `EqOnScalars`, `ContainsIgnoresCase`, `InNeedsArrayField`, `OtherOperatorsPass` and `InertClausePasses`. |
| `Filtering.MatchesAll` | src/store/documentSlice.js:43-63 | `every` over the clause list, from the left. `Filtering.MatchesAllIsConjunction` proves it is the conjunction of the clauses. |
| `Filtering.FilterStage` | src/store/documentSlice.js:41-65 | The clause stage runs only when there is a clause. `Filtering.FilterStageMeaning` proves it keeps exactly the records meeting every clause. |
| `Filtering.SearchEvalMeaning` | src/store/documentSlice.js:33-37 | When the search callback returns, it returns whether some search field is text that contains the term, ignoring case. On a record whose three fields are strings it always returns. |
| `Filtering.SearchAllMeaning` | src/store/documentSlice.js:31-38 | The search fails exactly when the callback throws on some record. When it succeeds, it keeps exactly the matching records, in input order. |
| `Filtering.SearchAllFails` | src/store/documentSlice.js:33-37 | The search stage yields no result exactly when the callback throws on some record, that is, reads a search field that is not a string before finding a match. |
| `Filtering.SearchAllKeeps` | src/store/documentSlice.js:33-37 | A search that returns has kept exactly the records that match, in their original order. |
| `Filtering.SearchStageMeaning` | src/store/documentSlice.js:29-38 | An empty search keeps every record. A non-empty search keeps only matching records, and it cannot fail when every record's search fields are text. |
| `Filtering.SearchIgnoresCase` | src/store/documentSlice.js:32 | Searching for a term and for its lower-cased form gives the same result. |
| `Filtering.MatchesAllIsConjunction` | src/store/documentSlice.js:43-63 | `every` over the clauses holds exactly when each clause holds. |
| `Filtering.MatchesAllAppend` | src/store/documentSlice.js:43 | A clause list split in two matches exactly when both halves match. Clause order and grouping do not matter. |
| `Filtering.FilterStageMeaning` | src/store/documentSlice.js:41-65 | The clause stage keeps exactly the records that satisfy every clause, in order, and never grows the list. This holds even when there are no clauses and the stage is skipped. |
| `Filtering.InertClausePasses` | src/store/documentSlice.js:46 | A clause with an empty key, an empty operator or an undefined value passes every record. |
| `Filtering.EqNeComplement` | src/store/documentSlice.js:49-52 | `eq` is strict equality of the field with the value, and an active `ne` clause passes exactly when `eq` fails. |
| `Filtering.EqOnScalars` | src/store/documentSlice.js:49-50 | Against a scalar value, `eq` is plain equality with the field (a missing field reads as undefined). |
| `Filtering.ContainsIgnoresCase` | src/store/documentSlice.js:53-54 | `contains` compares the lower-cased text forms, so re-casing the clause value does not change the outcome. On a string field, it is substring search ignoring case. |
| `Filtering.InNeedsArrayField` | src/store/documentSlice.js:55-59 | `in` passes exactly when the field is an array that includes the value. A scalar or missing field never passes. |
| `Filtering.OtherOperatorsPass` | src/store/documentSlice.js:60-61 | Every operator other than eq, ne, contains and in (for example gt, startswith, or an unknown one) passes every record. |
| `Sorting.StrLess` | src/store/documentSlice.js:69-70 | String `<`, modelled as lexicographic order on code points. The three lemmas below prove it a strict total order. |
| `Sorting.TypeRank` | src/store/documentSlice.js:69-70 | The class order that stands in for cross-type coercion. Undefined, null and arrays share the lowest class, then numbers, strings and booleans. |
| `Sorting.KeyLess` | src/store/documentSlice.js:69-70 | `<` on two sort keys: JavaScript's `<` within numbers, strings or booleans, and the class order across types. `Sorting.KeyLessStrictWeakOrder` proves it a strict weak order. |
| `Sorting.KeyTie` | src/store/documentSlice.js:71 | The comparator returns 0: neither key is below the other. |
| `Sorting.Before` | src/store/documentSlice.js:69-70 | The comparator is negative for the pair: the first key is below the second for `asc`, above it for any other order. |
| `Sorting.Tie` | src/store/documentSlice.js:71 | The comparator returns 0 for the pair. |
| `Sorting.Comparator` | src/store/documentSlice.js:68-72 | The comparator as the relation "sorts strictly before". `Sorting.ComparatorIsStrictWeakOrder` proves it consistent. |
| `Sorting.InsertionSort` | src/store/documentSlice.js:68 | The stable sort ECMA-262 requires. `InsertionSortPermutes`, `InsertionSortSorts` and `InsertionSortIsStable` prove it a sorted, stable permutation. |
| `Sorting.SortRecords` | src/store/documentSlice.js:68-72 | The sort stage on the pipeline's copy of the records. `Sorting.SortSpecification` states its meaning. |
| `Sorting.StrLessIrreflexive` | src/store/documentSlice.js:69 | String `<` is irreflexive. |
| `Sorting.StrLessTransitive` | src/store/documentSlice.js:69-70 | String `<`, modelled as lexicographic order on code points, is transitive. |
| `Sorting.StrLessTotal` | src/store/documentSlice.js:69-70 | Any two different strings are ordered one way or the other. |
| `Sorting.KeyLessStrictWeakOrder` | src/store/documentSlice.js:69-70 | The `<` on sort keys is irreflexive and transitive, and its incomparability is transitive. |
| `Sorting.KeyTieMeaning` | src/store/documentSlice.js:71 | A comparator result of 0 is an equivalence. Between two numbers or two strings it means equal keys. |
| `Sorting.BeforeStrictWeakOrder` | src/store/documentSlice.js:68-72 | In either direction, "sorts before" is a strict weak order, and a tie is exactly "neither sorts before the other". |
| `Sorting.ComparatorIsStrictWeakOrder` | src/store/documentSlice.js:68-72 | The comparator meets the condition under which ECMA-262 requires `sort` to be consistent. |
| `Sorting.Insert` | src/store/documentSlice.js:68 | Inserting one element adds exactly that element to the multiset. |
| `Sorting.InsertSorted` | src/store/documentSlice.js:68-72 | Inserting into a sorted sequence keeps it sorted. |
| `Sorting.InsertTies` | src/store/documentSlice.js:68-72 | Insertion never reorders the elements that tie with a given one. |
| `Sorting.InsertionSortPermutes` | src/store/documentSlice.js:68 | The sort returns a permutation of its input. |
| `Sorting.InsertionSortSorts` | src/store/documentSlice.js:68-72 | The sort's output is ordered by any strict weak order. |
| `Sorting.InsertionSortTies` | src/store/documentSlice.js:68-72 | The elements that tie with any given element come out in their input order. |
| `Sorting.InsertionSortIsStable` | src/store/documentSlice.js:68-72 | The sort is stable. |
| `Sorting.SortSpecification` | src/store/documentSlice.js:67-72 | The sort stage is a permutation of the surviving records, ordered by the key in the requested direction, with tied records in input order. |
| `Sorting.SortDirection` | src/store/documentSlice.js:69-70 | With `asc`, no record follows one with a greater key. With any other order, no record follows one with a smaller key. |
| `Paging.PageStart` | src/store/documentSlice.js:77 | The first index of a one-based page: `(page - 1) * perPage`. |
| `Paging.Paginate` | src/store/documentSlice.js:77-78 | The page window cut with `slice`. `Paging.PageWindow`, `Paging.PageOfIndex`, `Paging.PageZeroIsEmpty` and `Paging.NegativePageCountsFromEnd` state what it holds for every page number. |
| `Paging.CeilDiv` | src/store/documentSlice.js:76 | The page count is the least number of pages of `perPage` records that holds every record. It is zero exactly for an empty list. |
| `Paging.PaginationFor` | src/store/documentSlice.js:82-89 | The metadata reports the total, enough pages for it, the requested page and size, and `has_next` / `has_prev` exactly as `page < total_pages` / `page > 1`. |
| `Paging.PageWindow` | src/store/documentSlice.js:77-78 | For a page counted from 1, the page is the run of the sorted list from `(page - 1) * perPage`, at most `perPage` long. It is empty exactly when it starts at or past the end. |
| `Paging.PageOfIndex` | src/store/documentSlice.js:77-78 | Every record appears on page `i / perPage + 1`, at position `i % perPage`. The pages cover the whole list. |
| `Paging.PageZeroIsEmpty` | src/store/documentSlice.js:77-78 | Page 0 is always empty. |
| `Paging.NegativePageCountsFromEnd` | src/store/documentSlice.js:77-78 | For every negative page and positive page size, the page is the run that `slice` cuts with negative indices: it ends `-page * perPage` records before the end and starts `perPage` records earlier, clipped at the front. |
| `DocumentQuery.FetchDocuments` | src/store/documentSlice.js:21-100 | The whole `fetchDocuments` query: search, clauses, sort, page, and the rejection when the search throws. `FetchFailure`, `FetchPagination`, `FetchPage` and `FetchSortsSelection` state its result against the independent `DocumentQuery.Selection`. |
| `DocumentQuery.SortOf` | src/store/documentSlice.js:90-93 | The sort a query applies and echoes: its column and its order. |
| `DocumentQuery.Selected` | src/store/documentSlice.js:29-65 | A record survives a query when it meets the search, if any, and every clause. |
| `DocumentQuery.SearchThrows` | src/store/documentSlice.js:31-37 | The search stage throws when the search is non-empty and the callback throws on some record. |
| `DocumentQuery.Selection` | src/store/documentSlice.js:29-65 | The records the query keeps are exactly the input records that satisfy the search and every clause. |
| `DocumentQuery.ClauseStageSelects` | src/store/documentSlice.js:41-65 | With no search, the clause stage alone yields the selection. |
| `DocumentQuery.BothStagesSelect` | src/store/documentSlice.js:31-65 | With a search, the search stage followed by the clause stage yields the selection. |
| `DocumentQuery.KeepStagesSelect` | src/store/documentSlice.js:29-65 | Whenever the search returns, the two keep stages together yield the selection. |
| `DocumentQuery.SortedSlice` | src/store/documentSlice.js:78 | A contiguous window of a sorted list is sorted. |
| `DocumentQuery.FetchFailure` | src/store/documentSlice.js:23-98 | The query is rejected exactly when the search throws, which needs a non-string search field, and then with the TypeError message. A list whose search fields are all text never fails. |
| `DocumentQuery.FetchPagination` | src/store/documentSlice.js:75-95 | A fulfilled query reports the size of the selection, `ceil(total / perPage)` pages, the requested page and size, the next and previous flags, and echoes its sort and clauses. |
| `DocumentQuery.FetchPage` | src/store/documentSlice.js:74-89 | A fulfilled query's page holds at most `perPage` records. Each one is an input record that satisfies the search and every clause. The page is ordered by the sort, and for a page counted from 1 it is empty exactly when that page lies past the last one. |
| `DocumentQuery.SortedPage` | src/store/documentSlice.js:75-78 | Any page of the sorted selection is short enough, drawn from the selection, ordered, and empty exactly past the last page. |
| `DocumentQuery.FetchSortsSelection` | src/store/documentSlice.js:68-72 | The sorted list behind the pages is a stable permutation of the selection. |
| `DocumentQuery.FetchWithoutQuery` | src/store/documentSlice.js:23-95 | With no search and no clauses, the query succeeds and counts every record. |
| `DocumentQuery.MoreClausesSelectFewer` | src/store/documentSlice.js:41-65 | Adding a clause can only shrink the selection. |
| `DocumentQuery.FindById` | src/store/documentSlice.js:159 | `find` returns nothing exactly when no record has the id. Otherwise it returns the first record that has it. |
| `DocumentQuery.FindDocument` | src/store/documentSlice.js:152-170 | The lookup fails with "Document not found" exactly when the id does not convert to a number held by some record. Otherwise it returns a record with that numeric id. |
| `DocumentQuery.FindDocumentByRouteParam` | src/store/documentSlice.js:159 | A route parameter spelling an existing id (`"5"`) finds the record with id 5. |
| `DocumentQuery.FindDocumentByNumber` | src/store/documentSlice.js:159-165 | Any id value that converts to a number held by some record finds a record with that id. |
| `DocumentQuery.HasId` | src/store/documentSlice.js:159 | `doc.id === n`. |
| `DocumentQuery.FindDocumentByZeroFraction` | src/store/documentSlice.js:159 | For every id held by some record, that id written with a zero fraction, as in `"1.0"`, finds a record with that id. |
| `DocumentQuery.HasIdMeaning` | src/store/documentSlice.js:159 | `doc.id === n` holds exactly when the record's id is the number `n`. |
| `DocumentQuery.CreatedDocument` | src/store/documentSlice.js:109-114 | A created record has id `count + 1` unless the data brings its own id. The code passes the mock list's length, which is 50 and never grows, so every created record gets id 51. The record keeps every submitted field and stamps both timestamps with the same time. |
| `DocumentQuery.UpdatedDocument` | src/store/documentSlice.js:128-131 | An updated record keeps every submitted field and replaces only `updated_at`. |
| `ListQuery.Merge` | src/store/documentSlice.js:206-211 | A pagination payload overwrites exactly the keys it carries, each of the six keys taking the payload's value when present, and keeps all others. |
| `ListQuery.MergeLaws` | src/store/documentSlice.js:206-211 | Merging `{}` changes nothing. Merging twice is merging the later payload over the earlier one, so merging the same payload again changes nothing. |
| `ListQuery.PageOnly` | src/components/documents/DocumentList.js:187-189 | The payload `{ current_page: page }`, which carries only the page. |
| `ListQuery.PerPageFromStart` | src/components/documents/DocumentList.js:191-193 | The payload `{ per_page, current_page: 1 }`, which carries only the page size and page 1. |
| `DocumentSlice.DocumentStore.constructor` | src/store/documentSlice.js:175-195 | The store starts on page 1 of an empty list, ten rows a page, sorted by id ascending, with no query, no selection, no error and nothing in flight. |
| `DocumentSlice.DocumentStore.SetSearch` | src/store/documentSlice.js:197-199 | Only the search changes. |
| `DocumentSlice.DocumentStore.SetSort` | src/store/documentSlice.js:200-202 | Only the sort changes. |
| `DocumentSlice.DocumentStore.SetFilters` | src/store/documentSlice.js:203-205 | Only the clause list changes. |
| `DocumentSlice.DocumentStore.SetPagination` | src/store/documentSlice.js:206-211 | Only the pagination changes: the payload's keys are merged over the old ones. |
| `DocumentSlice.DocumentStore.ResetFilters` | src/store/documentSlice.js:212-215 | The clauses and the search are emptied. The sort and the pagination are unchanged. |
| `DocumentSlice.DocumentStore.ClearSelected` | src/store/documentSlice.js:216-218 | Only the selection is cleared. |
| `DocumentSlice.DocumentStore.FetchPending` | src/store/documentSlice.js:223-225 | Only the loading flag is raised. |
| `DocumentSlice.DocumentStore.FetchFulfilled` | src/store/documentSlice.js:226-232 | The page, its pagination and its sort replace the old ones, and the error and loading flag are cleared. The stored clauses and search are left as they were. |
| `DocumentSlice.DocumentStore.FetchRejected` | src/store/documentSlice.js:233-237 | The old page stays. The payload becomes the error, and loading ends. |
| `DocumentSlice.DocumentStore.GetByIdPending` | src/store/documentSlice.js:240-242 | Only the loading flag is raised. |
| `DocumentSlice.DocumentStore.GetByIdFulfilled` | src/store/documentSlice.js:243-247 | The record becomes the selection, and the error is cleared. |
| `DocumentSlice.DocumentStore.GetByIdRejected` | src/store/documentSlice.js:248-252 | The previous selection is kept, and the payload becomes the error. |
| `DocumentSlice.DocumentStore.CreatePending` | src/store/documentSlice.js:255-257 | Only the submitting flag is raised. |
| `DocumentSlice.DocumentStore.CreateFulfilled` | src/store/documentSlice.js:258-262 | The created record becomes the selection, and submitting ends. |
| `DocumentSlice.DocumentStore.CreateRejected` | src/store/documentSlice.js:263-267 | Submitting ends, and the payload becomes the error. |
| `DocumentSlice.DocumentStore.UpdatePending` | src/store/documentSlice.js:270-272 | Only the submitting flag is raised. |
| `DocumentSlice.DocumentStore.UpdateFulfilled` | src/store/documentSlice.js:273-277 | The updated record becomes the selection, and submitting ends. |
| `DocumentSlice.DocumentStore.UpdateRejected` | src/store/documentSlice.js:278-282 | Submitting ends, and the payload becomes the error. |
| `DocumentSlice.DocumentStore.DeletePending` | src/store/documentSlice.js:285-287 | Only the submitting flag is raised. |
| `DocumentSlice.DocumentStore.DeleteFulfilled` | src/store/documentSlice.js:288-292 | The selection is cleared, and submitting ends. The list is left for the next fetch. |
| `DocumentSlice.DocumentStore.DeleteRejected` | src/store/documentSlice.js:293-297 | Submitting ends, and the payload becomes the error. |
| `DocumentSlice.DocumentStore.RunFetch` | src/store/documentSlice.js:223-237 | Dispatching `fetchDocuments` stores the query's page, pagination and sort, or keeps the old page and records the query's error. Either way loading ends and the stored query is unchanged. |
| `DocumentSlice.DocumentStore.RunGetById` | src/store/documentSlice.js:240-252 | Dispatching `getDocumentById` selects the found record. An unknown id records "Document not found" and keeps the previous selection. |
| `DocumentSlice.DocumentStore.RunCreate` | src/store/documentSlice.js:255-262 | Dispatching `createDocument` makes the created record, with its generated id and timestamps, the selection. Nothing else but the submitting flag changes. |
| `DocumentSlice.DocumentStore.RunUpdate` | src/store/documentSlice.js:270-277 | Dispatching `updateDocument` makes the re-stamped record the selection. |
| `DocumentSlice.DocumentStore.RunDelete` | src/store/documentSlice.js:285-292 | Dispatching `deleteDocument` clears the selection. |
| `DocumentList.LoadDocumentsParams` | src/components/documents/DocumentList.js:170-181 | The arguments `loadDocuments` builds: the stored page, page size, search, sort column, order and clauses. `DocumentList.LoadKeepsQuery` proves that the answer echoes them. |
| `DocumentList.LoadKeepsQuery` | src/components/documents/DocumentList.js:170-181 | The fetch receives the stored page, page size, sort, search and clauses unchanged, and its result echoes the stored sort and clauses. |
| `DocumentList.LoadDocuments` | src/components/documents/DocumentList.js:170-181 | Loading stores exactly what the query of the stored state yields: on success its page, pagination and sort with the error cleared, on failure the error with the old page kept. The stored page is sorted and the stored total counts the whole selection. The search, clauses, selection and submitting flag are left alone. |
| `DocumentList.HandleSort` | src/components/documents/DocumentList.js:183-185 | The sort becomes exactly the clicked column and direction, and nothing else changes. |
| `DocumentList.HandlePageChange` | src/components/documents/DocumentList.js:187-189 | Only the current page changes. |
| `DocumentList.HandleRowsPerPageChange` | src/components/documents/DocumentList.js:191-193 | The page size changes and the list returns to page 1. Nothing else changes. |
| `DocumentList.HandleSearchChange` | src/components/documents/DocumentList.js:195-198 | The search changes and the list returns to page 1. Nothing else changes. |
| `DocumentList.HandleApplyFilters` | src/components/documents/DocumentList.js:200-203 | The clause list is replaced and the list returns to page 1. Nothing else changes. |
| `DocumentList.HandleResetFilters` | src/components/documents/DocumentList.js:205-208 | The clauses and the search are emptied and the list returns to page 1. The sort and the page size stay. |
| `DocumentList.HandleDeleteConfirm` | src/components/documents/DocumentList.js:227-232 | After a delete and a reload, nothing is selected and nothing is in flight. The whole new state is the old one with the fetch result of the unchanged stored query stored, as in `LoadDocuments`. |
| `UserSlice.FetchUsersRejectionAsWritten` | src/store/userSlice.js:12 | The rejection payload as written: `error.message` read from the thrown string. `UserSlice.FetchUsersRejectionLosesMessage` proves it is undefined for every failure. |
| `UserSlice.MessageOf` | src/store/userSlice.js:12 | `error.message` is the message of an Error object, and undefined for a thrown string. |
| `UserSlice.ServiceErrorText` | src/services/userService.js:8 | The service throws the server's message when it is non-empty, otherwise "Failed to fetch users". Either way the text is never empty. |
| `UserSlice.FetchUsersRejectionLosesMessage` | src/store/userSlice.js:12 | As written, the rejection payload of a failed user fetch is undefined, whatever non-empty text the service threw. |
| `UserSlice.FetchUsersRejection` | src/store/userSlice.js:12 | The corrected rejection payload is the text the service threw: never empty, and the server's message when there is one. |
| `UserSlice.CreatedUser` | src/store/userSlice.js:25-28 | A created user keeps every submitted field, and takes the clock value as its id unless the data brings one. |
| `UserSlice.UserStore.constructor` | src/store/userSlice.js:68-88 | The store starts on page 1 of an empty list, ten rows a page, sorted by id ascending, with no query and nothing in flight. |
| `UserSlice.UserStore.SetSearch` | src/store/userSlice.js:90-92 | Only the search changes. |
| `UserSlice.UserStore.SetSort` | src/store/userSlice.js:93-95 | Only the sort changes. |
| `UserSlice.UserStore.SetFilters` | src/store/userSlice.js:96-98 | Only the clause list changes. |
| `UserSlice.UserStore.SetPagination` | src/store/userSlice.js:99-104 | Only the pagination changes: the payload's keys are merged over the old ones. |
| `UserSlice.UserStore.ResetFilters` | src/store/userSlice.js:105-108 | The clauses and the search are emptied. The sort and the pagination are unchanged. |
| `UserSlice.UserStore.ClearSelected` | src/store/userSlice.js:109-111 | Only the selection is cleared. |
| `UserSlice.UserStore.FetchPending` | src/store/userSlice.js:116-118 | Only the loading flag is raised. |
| `UserSlice.UserStore.FetchFulfilled` | src/store/userSlice.js:119-125 | The list, pagination and sort come from the payload, and the error and loading flag are cleared. The clauses and search are kept. |
| `UserSlice.UserStore.FetchRejected` | src/store/userSlice.js:126-130 | The list is kept. The payload becomes the error, and loading ends. |
| `UserSlice.UserStore.CreatePending` | src/store/userSlice.js:133-135 | Only the submitting flag is raised. |
| `UserSlice.UserStore.CreateFulfilled` | src/store/userSlice.js:136-139 | Only the submitting flag is lowered. The list and the selection are untouched. |
| `UserSlice.UserStore.CreateRejected` | src/store/userSlice.js:140-144 | Submitting ends, and the payload becomes the error. |
| `UserSlice.UserStore.UpdatePending` | src/store/userSlice.js:147-149 | Only the submitting flag is raised. |
| `UserSlice.UserStore.UpdateFulfilled` | src/store/userSlice.js:150-153 | Only the submitting flag is lowered. |
| `UserSlice.UserStore.UpdateRejected` | src/store/userSlice.js:154-158 | Submitting ends, and the payload becomes the error. |
| `UserSlice.UserStore.DeletePending` | src/store/userSlice.js:161-163 | Only the submitting flag is raised. |
| `UserSlice.UserStore.DeleteFulfilled` | src/store/userSlice.js:164-167 | Only the submitting flag is lowered. The list keeps the deleted user until the next fetch. |
| `UserSlice.UserStore.DeleteRejected` | src/store/userSlice.js:168-172 | Submitting ends, and the payload becomes the error. |
| `UserSlice.UserStore.RunFetchUsers` | src/store/userSlice.js:116-130 | Dispatching `fetchUsers` stores a response's page, pagination and sort. On a failed request it keeps the old page and records the (corrected) non-empty error text. |
| `UserList.SearchClause` | src/components/users/UserList.js:127 | The clause a non-empty search becomes: `name contains search`. |
| `UserList.UserQueryFor` | src/components/users/UserList.js:120-130 | The request `loadUsers` sends: the stored page, page size, sort and the folded clauses. `UserList.LoadUsers` returns it. |
| `UserList.LoadUsersFilters` | src/components/users/UserList.js:127 | The clauses sent are the stored ones, in order, followed by one `name contains search` clause exactly when the search is non-empty. |
| `UserList.LoadUsersFiltersAddsOnlySearch` | src/components/users/UserList.js:127 | The request adds no clause other than the search clause, and it adds that clause exactly when there is a search. |
| `UserList.LoadUsers` | src/components/users/UserList.js:120-130 | The request carries the stored page, size and sort and the folded clauses, with the stored clauses as its prefix. Building it leaves the stored clauses and search unchanged. A response replaces the list, pagination and sort and clears the error. A failure keeps the list and stores the service's thrown text. Nothing else changes. |
| `UserList.HandleSort` | src/components/users/UserList.js:132-134 | The sort becomes exactly the clicked column and direction, and nothing else changes. |
| `UserList.HandlePageChange` | src/components/users/UserList.js:136-138 | Only the current page changes. |
| `UserList.HandleRowsPerPageChange` | src/components/users/UserList.js:140-142 | The page size changes and the list returns to page 1. |
| `UserList.HandleSearchChange` | src/components/users/UserList.js:144-147 | The search changes and the list returns to page 1. The next request sends the search as a trailing clause. |
| `UserList.HandleApplyFilters` | src/components/users/UserList.js:149-152 | The clause list is replaced and the list returns to page 1. |
| `UserList.HandleResetFilters` | src/components/users/UserList.js:154-157 | The clauses and the search are emptied and the list returns to page 1. The next request sends no clause at all. |
| `UserList.HandleDeleteConfirm` | src/components/users/UserList.js:172-177 | After a delete and a reload, the request is the stored query and nothing is in flight. The whole new state is the old one with the service's answer stored, as in `LoadUsers`. |
| `AuthSlice.Matches` | src/store/authSlice.js:19 | An account matches when both its username and its password are equal to the given ones. |
| `AuthSlice.SessionUser` | src/store/authSlice.js:35-39 | The user a login returns: the account's username, name and role, without the password. |
| `AuthSlice.Consistent` | src/store/authSlice.js:74-122 | The invariant of the auth slice: authenticated exactly when a user is set. The reducer lemmas prove every step keeps it. |
| `AuthSlice.Run` | src/store/authSlice.js:81-122 | The state after a sequence of dispatched actions. `AuthSlice.RunKeepsConsistency` proves it keeps the invariant. |
| `AuthSlice.FindAccount` | src/store/authSlice.js:18-20 | The lookup finds nothing exactly when no account matches both the username and the password. Otherwise it finds a matching table entry. |
| `AuthSlice.Login` | src/store/authSlice.js:11-44 | Login succeeds exactly when some table entry matches both credentials, and then returns that entry's name fields without the password. Otherwise it rejects with "Invalid credentials". |
| `AuthSlice.LoginExamples` | src/store/authSlice.js:5-8 | Both demo accounts log in with their own passwords, and a known name with the other account's password is rejected. |
| `AuthSlice.LoginUserIsTableEntry` | src/store/authSlice.js:35-39 | Only the two table usernames can log in, and each gets its own name and role. |
| `AuthSlice.CheckAuth` | src/store/authSlice.js:51-69 | The session check yields a user exactly when a non-empty token is stored and decodes, and then yields the decoded user. |
| `AuthSlice.Step` | src/store/authSlice.js:81-122 | Every reducer case keeps "authenticated exactly when a user is set". |
| `AuthSlice.SessionStepsRestoreConsistency` | src/store/authSlice.js:92-122 | The login, logout and session-check results set that invariant even from an inconsistent state. Logout leaves the loading flag and the error alone, and a rejected login clears the user and stores the rejection. |
| `AuthSlice.RunKeepsConsistency` | src/store/authSlice.js:88-122 | Any sequence of actions from a consistent state keeps the invariant. |
| `AuthSlice.ReachableStatesConsistent` | src/store/authSlice.js:74-122 | Every state reachable from the initial state is consistent. |
| `AuthSlice.AuthState.constructor` | src/store/authSlice.js:74-79 | The store starts signed out, loading, with no error. |
| `AuthSlice.AuthState.Dispatch` | src/store/authSlice.js:81-122 | A dispatch applies exactly one reducer step and keeps the invariant. |
| `AuthSlice.AuthState.RunLogin` | src/store/authSlice.js:88-105 | After a login, the store is authenticated exactly when the credentials match. It then holds that user with no error, or no user and "Invalid credentials". |
| `AuthSlice.AuthState.RunLogout` | src/store/authSlice.js:108-112 | Logout signs out and changes nothing else. |
| `AuthSlice.AuthState.RunCheckAuth` | src/store/authSlice.js:115-122 | After the session check, the store is authenticated exactly when a stored token decodes. The user is the decoded one, and the error is untouched. |
| `FilterPanel.FindField` | src/components/common/FilterPanel.js:84 | `find` returns nothing exactly when no field has the id. Otherwise it returns a field with that id. |
| `FilterPanel.FieldType` | src/components/common/FilterPanel.js:83-86 | A known field's type, and "string" for an id that names no field. |
| `FilterPanel.FieldLabel` | src/components/common/FilterPanel.js:88-91 | A known field's label, and the raw id for an id that names no field. |
| `FilterPanel.FindOperator` | src/components/common/FilterPanel.js:94 | `find` returns nothing exactly when no row has the value. Otherwise it returns a row with that value. |
| `FilterPanel.OperatorLabel` | src/components/common/FilterPanel.js:93-96 | The table's label for a known operator, and the raw operator otherwise. |
| `FilterPanel.FindOperatorFirst` | src/components/common/FilterPanel.js:94 | The lookup returns the first row that carries the value. |
| `FilterPanel.OperatorLabelGreaterThan` | src/components/common/FilterPanel.js:32 | The chip for `gt` reads "Greater Than". |
| `FilterPanel.OperatorLabelInList` | src/components/common/FilterPanel.js:39 | The chip for `in`, the last row, reads "In List". |
| `FilterPanel.OperatorLabelOfUnknown` | src/components/common/FilterPanel.js:95 | An operator the table lacks is shown as itself. |
| `FilterPanel.ValueIn` | src/components/common/FilterPanel.js:107-108 | The `filter` callback that keeps the operators whose value is listed. |
| `FilterPanel.AllowedValues` | src/components/common/FilterPanel.js:101-124 | The operator values each field type allows: six for number, date and datetime, two for boolean, two for array, five for every other type, and the whole table for a falsy type. |
| `FilterPanel.CompatibleOperators` | src/components/common/FilterPanel.js:98-125 | `getCompatibleOperators`. The lemmas below prove that the menu is exactly the table rows the type allows, in table order. |
| `FilterPanel.DraftClause` | src/components/common/FilterPanel.js:72 | The clause an added draft becomes: its key, operator and value. |
| `FilterPanel.CompatibleOperatorsAllowed` | src/components/common/FilterPanel.js:103-124 | For a typed field, the menu holds exactly the table rows whose value the type's list names. |
| `FilterPanel.CompatibleOperatorsUntyped` | src/components/common/FilterPanel.js:101 | A field with an empty type offers the whole table. |
| `FilterPanel.CompatibleOperatorsNumeric` | src/components/common/FilterPanel.js:104-109 | Number, date and datetime fields offer exactly eq, ne, gt, lt, ge and le. |
| `FilterPanel.CompatibleOperatorsBoolean` | src/components/common/FilterPanel.js:110-113 | Boolean fields offer exactly eq and ne. |
| `FilterPanel.CompatibleOperatorsArray` | src/components/common/FilterPanel.js:114-117 | Array fields offer exactly contains and in. |
| `FilterPanel.CompatibleOperatorsText` | src/components/common/FilterPanel.js:118-123 | Status, string and every other type offer exactly eq, ne, contains, startswith and endswith. |
| `FilterPanel.UnknownFieldIsText` | src/components/common/FilterPanel.js:83-86 | An id that names no field is typed as text, so it gets the text operators. |
| `FilterPanel.CompatibleOperatorsInTableOrder` | src/components/common/FilterPanel.js:98-125 | The menu is always a subsequence of the operator table, in table order. |
| `FilterPanel.RemoveFilter` | src/components/common/FilterPanel.js:77-81 | Removing index `i` gives a copy that is one shorter, with every other clause in its original order. An index past the end changes nothing. |
| `FilterPanel.RemoveFilterKeepsOthers` | src/components/common/FilterPanel.js:77-81 | Each remaining clause is the clause before the index, or the one after it shifted down by one. |
| `FilterPanel.RemoveFilterIsSubsequence` | src/components/common/FilterPanel.js:77-81 | What removal leaves is a subsequence of the original list. |
| `FilterPanel.RemovedIsSubsequence` | src/components/common/FilterPanel.js:78-79 | Dropping one element of a list leaves a subsequence of it. |
| `FilterPanel.SubsequenceSelf` | src/components/common/FilterPanel.js:78 | A list is a subsequence of itself. |
| `FilterPanel.FilterBuilder.constructor` | src/components/common/FilterPanel.js:51-55 | The draft starts as an empty key, the `eq` operator and an empty value. |
| `FilterPanel.FilterBuilder.ChangeField` | src/components/common/FilterPanel.js:61-68 | Changing the key or the operator sets it and clears the value. Changing the value touches only the value. |
| `FilterPanel.FilterBuilder.AddFilter` | src/components/common/FilterPanel.js:70-75 | With a key and an operator, the draft is appended to the end of the clauses and the draft is reset. Otherwise nothing is emitted and the draft stays. |
| `DataTable.NextSortOrder` | src/components/common/DataTable.js:47-50 | A click asks for `desc` exactly when the column is already sorted ascending, and for `asc` otherwise. |
| `DataTable.SortClicksAlternate` | src/components/common/DataTable.js:48 | Repeated clicks on one column alternate asc and desc with no third state. A different column always starts at asc. |
| `DataTable.HeaderDirection` | src/components/common/DataTable.js:172 | The arrow shows the stored direction on the sorted column, and asc elsewhere. |
| `DataTable.ClickAgainstShownDirection` | src/components/common/DataTable.js:170-173 | On the sorted column a click asks for the opposite of the arrow shown. On any other column it asks for asc, the arrow that column already shows. |
| `DataTable.IsSelected` | src/components/common/DataTable.js:52 | `indexOf(id) !== -1`. `DataTable.IsSelectedMeaning` proves it is membership up to `===`. |
| `DataTable.AllChecked` | src/components/common/DataTable.js:150 | The select-all box is ticked when the page is non-empty and every row is selected. |
| `DataTable.Indeterminate` | src/components/common/DataTable.js:149 | The select-all box is half-ticked when some but not all rows are selected. |
| `DataTable.IsSelectedMeaning` | src/components/common/DataTable.js:52 | A row is selected exactly when some selected id is `===` its id. For a scalar id, that is membership in the selection. |
| `DataTable.SelectAllFlags` | src/components/common/DataTable.js:149-150 | The checked and indeterminate flags are never both set. With a non-empty selection that fits the page exactly one is set, and with none selected neither is. |
| `DataTable.StatusTone` | src/components/common/DataTable.js:84-99 | The chip colour class of a status value. The lemmas below prove which class each value gets. |
| `DataTable.StatusToneNeutralIff` | src/components/common/DataTable.js:84-99 | A string is neutral exactly when its lower-cased form is none of the eight known statuses. |
| `DataTable.StatusToneIgnoresCase` | src/components/common/DataTable.js:84 | The chip class depends only on the lower-cased status, and a non-string value is always neutral. |
| `DataTable.StatusToneClasses` | src/components/common/DataTable.js:84-99 | The eight known statuses fall into their four classes. Every string whose lower-cased form is none of them, and every non-string, is neutral. |
| `DataTable.LowerCapitalised` | src/components/common/DataTable.js:84 | Lower-casing a capitalised word only lowers its first letter. |
| `DataTable.StatusToneCapitalised` | src/components/common/DataTable.js:102-114 | Capitalised statuses such as "Active" and "Draft" get the same class as the lower-case ones. |
| `DataTable.JoinCell` | src/components/common/DataTable.js:126 | `value.join(', ')` on an array cell. |
| `DataTable.FallbackCell` | src/components/common/DataTable.js:125-129 | Arrays are joined with ", ", undefined and null become "—", and any other value is shown as it is. |
| `DataTable.FallbackCellShowsScalar` | src/components/common/DataTable.js:125-129 | A fallback cell is never undefined, null or an array. An empty array shows "", and a one-string array shows that string. |
| `DataTable.RenderCell` | src/components/common/DataTable.js:54-130 | A formatter wins. A status column shows a chip with the value's class. A falsy value, or any value in a column that is not a date, datetime or status column, goes to the fallback. |
| `DataTable.HeaderCells` | src/components/common/DataTable.js:145-196 | The header has the select-all cell first exactly when the table is selectable, and the actions cell last exactly when a handler is given, around one cell per column. |
| `DataTable.EmptyRowColSpan` | src/components/common/DataTable.js:319-321 | The empty-state row's `colSpan`. `DataTable.EmptyRowSpansHeader` proves it equals the number of header cells. |
| `DataTable.EmptyRowSpansHeader` | src/components/common/DataTable.js:319-321 | The "No data found" row spans exactly as many cells as the header row has. |
| `PaginationBar.Min` | src/components/common/Pagination.js:59 | `Math.min` is the smaller of its two arguments. |
| `PaginationBar.RangeShown` | src/components/common/Pagination.js:55-73 | The caption reads "No entries found" exactly when there are no items. Otherwise it shows a range that stays within the total. |
| `PaginationBar.RangeBounds` | src/components/common/Pagination.js:59-63 | For a page counted from 1, `1 <= first <= last <= total`, and the range spans at most one page of rows. |
| `PaginationBar.RangePastLastPage` | src/components/common/Pagination.js:59-63 | Past the last page, the caption shows `total - total of total` while the page itself is empty. |
| `PaginationBar.RangeMatchesPage` | src/components/common/Pagination.js:59-63 | On an existing page, the caption's first and last positions are those of the records the page holds. |
| `PaginationBar.ParseRowsPerPage` | src/components/common/Pagination.js:30-32 | `parseInt` of the menu value, which the menu prints from a number. |
| `PaginationBar.RowsPerPageChoicesRoundTrip` | src/components/common/Pagination.js:30-32 | A menu value printed and read back with `parseInt(value, 10)` is itself. |
| `PaginationBar.RowsPerPageOptionsArePageSizes` | src/components/common/Pagination.js:21 | The default choices are valid page sizes and strictly increasing. |
| `Sidebar.IsActive` | src/components/layout/Sidebar.js:41-46 | `isActive(path)` for the current location. `Sidebar.IsActiveMeaning` states its meaning. |
| `Sidebar.IsActiveMeaning` | src/components/layout/Sidebar.js:41-46 | The root is active only on "/" itself. Any other entry is active exactly on the locations that begin with its path. |
| `Sidebar.SubRoutesActivateTheirEntry` | src/components/layout/Sidebar.js:41-46 | Every sub-route of an entry keeps that entry active and leaves the root inactive. |
| `Sidebar.UsersRoutes` | src/components/layout/Sidebar.js:45 | "/users/new" and "/users/5" activate the users entry and not the root. Because the test is a character prefix, "/usersX" activates it too. |
| `Sidebar.AtMostOneEntryActive` | src/components/layout/Sidebar.js:28-46 | However the location reads, at most one of the four menu entries is highlighted. |
| `Helpers.Falsy` | src/utils/helpers.js:47 | A missing or empty string argument is falsy. |
| `Helpers.TruncateString` | src/utils/helpers.js:46-50 | A missing or empty string gives "". A short string is kept. A long one is cut to `maxLength` characters plus "...", `maxLength + 3` long. |
| `Helpers.TruncateIdempotent` | src/utils/helpers.js:46-50 | Truncating a truncated string again changes nothing. |
| `Helpers.TruncateKeepsPrefix` | src/utils/helpers.js:46-50 | The result is a prefix of the input, followed by "..." exactly when something was cut. |
| `Helpers.ExtensionStart` | src/utils/helpers.js:93 | Where the extension starts: `(lastIndexOf('.') - 1 >>> 0) + 2`. |
| `Helpers.GetFileExtension` | src/utils/helpers.js:91-94 | `getFileExtension`. `Helpers.GetFileExtensionMeaning` proves it is the lower-cased text after the last dot, and "" without one. |
| `Helpers.ExtensionStartCases` | src/utils/helpers.js:93 | The unsigned shift puts the start past the end when there is no dot or only a leading one, and just after the last dot otherwise. |
| `Helpers.SliceFromPastEnd` | src/utils/helpers.js:93 | A slice that starts past the end is empty. |
| `Helpers.SliceAfterLastDot` | src/utils/helpers.js:93 | Slicing after the last dot keeps the text after it, which holds no dot. |
| `Helpers.ExtensionWithoutDot` | src/utils/helpers.js:91-94 | A name with no dot, or with a dot only at index 0, has the extension "". |
| `Helpers.ExtensionAfterDot` | src/utils/helpers.js:91-94 | When a dot follows the first character, the extension is the lower-cased text after the last dot, and it holds no dot. |
| `Helpers.GetFileExtensionMeaning` | src/utils/helpers.js:91-94 | Both cases together: "" when there is no dot past index 0, otherwise the lower-cased text after the last dot. |
| `Helpers.LeadingDotHasNoExtension` | src/utils/helpers.js:93 | ".bashrc"-style names have no extension. |
| `Helpers.TrailingDotHasNoExtension` | src/utils/helpers.js:93 | A name ending in a dot has no extension. |
| `Helpers.FileTypeOfLower` | src/utils/helpers.js:102-120 | The type is always one of PDF, DOCX, XLS, TXT, JPG and Unknown. |
| `Helpers.GetFileType` | src/utils/helpers.js:101-121 | Every extension maps to one of the six types. |
| `Helpers.GetFileTypeIgnoresCase` | src/utils/helpers.js:102 | The type depends only on the lower-cased extension. |
| `Helpers.FileTypeKnownIff` | src/utils/helpers.js:102-120 | Exactly the ten listed extensions have a known type. |
| `Helpers.DocumentFileTypes` | src/utils/helpers.js:103-112 | pdf maps to PDF, doc and docx to DOCX, xls and xlsx to XLS, and txt to TXT. |
| `Helpers.ImageFileTypes` | src/utils/helpers.js:113-117 | jpg, jpeg, png and gif all map to JPG. |
| `Helpers.MatchesEmailPattern` | src/utils/helpers.js:129 | The language of `/^[^\s@]+@[^\s@]+\.[^\s@]+$/`, stated as "some placement of the `@` and the dot fits". It is the reference `isValidEmail` is proved against. |
| `Helpers.IsValidEmail` | src/utils/helpers.js:128-131 | `isValidEmail`, decided from the first `@`. `Helpers.IsValidEmailMeaning` proves it accepts exactly the pattern's language. |
| `Helpers.ValidEmailMatchesPattern` | src/utils/helpers.js:128-131 | Every address the decision accepts matches `^[^\s@]+@[^\s@]+\.[^\s@]+$`. |
| `Helpers.DomainOfSplit` | src/utils/helpers.js:129 | The text after the `@` of a matching address is a domain: no whitespace or `@`, and a dot with text on both sides. |
| `Helpers.PatternMatchIsValidEmail` | src/utils/helpers.js:128-131 | Every string that matches the pattern is accepted. |
| `Helpers.IsValidEmailMeaning` | src/utils/helpers.js:128-131 | The decision accepts exactly the strings that match the pattern. |
| `Helpers.IsEmpty` | src/utils/helpers.js:138-140 | `isEmpty`. `Helpers.IsEmptyMeaning` states its meaning. |
| `Helpers.IsEmptyObject` | src/utils/helpers.js:147-149 | `isEmptyObject`. `Helpers.IsEmptyObjectMeaning` states its meaning. |
| `Helpers.IsEmptyMeaning` | src/utils/helpers.js:138-140 | A string is empty exactly when it is missing or whitespace only. |
| `Helpers.IsEmptyObjectMeaning` | src/utils/helpers.js:147-149 | An object is empty exactly when it has no keys, and adding any field makes it non-empty. |
| `JsBuiltins.ResolveIndex` | src/store/documentSlice.js:78 | A relative index resolves into `[0, len]`: a negative one counts from the end, and a too-large one clamps to the length. |
| `JsBuiltins.Slice` | src/store/documentSlice.js:78 | `slice` returns the run between the two resolved indices, or nothing when they cross. |
| `JsBuiltins.SliceBounds` | src/store/documentSlice.js:78 | A slice is never longer than the list or than the requested window, and it holds only elements of the list. |
| `JsBuiltins.SpliceOne` | src/components/common/FilterPanel.js:78-79 | `splice(index, 1)` on a copy removes the element at the resolved index. An index past the end removes nothing. |
| `JsBuiltins.ToUint32` | src/utils/helpers.js:93 | `x >>> 0` is below 2^32 and equals `x` modulo 2^32. |
| `JsBuiltins.Lower` | src/store/documentSlice.js:32 | Lower-casing keeps the length, maps each character, and leaves no upper-case letter. |
| `JsBuiltins.LowerIdempotent` | src/store/documentSlice.js:32-36 | Lower-casing twice is lower-casing once. |
| `JsBuiltins.LowerOfLowerCase` | src/store/documentSlice.js:32-36 | A string without upper-case letters is its own lower case. |
| `JsBuiltins.LowerKeepsNonLetters` | src/utils/helpers.js:93 | Lower-casing neither adds nor removes a character that is not a letter, such as a dot. |
| `JsBuiltins.LowerAppend` | src/store/documentSlice.js:32-36 | Lower-casing distributes over concatenation. |
| `JsBuiltins.Includes` | src/store/documentSlice.js:34-36 | `includes` holds exactly when the term occurs at some offset. |
| `JsBuiltins.IncludesTrivial` | src/store/documentSlice.js:34-36 | Every string includes "" and itself. |
| `JsBuiltins.IncludesExtend` | src/store/documentSlice.js:34-36 | An occurrence survives extending the text on either side. |
| `JsBuiltins.IndexOfChar` | src/utils/helpers.js:129 | `indexOf(c)` is -1 exactly when `c` is absent, and otherwise the index of its first occurrence. |
| `JsBuiltins.IndexOfCharIsFirst` | src/utils/helpers.js:129 | The first occurrence is the only one with no earlier copy. |
| `JsBuiltins.LastIndexOfChar` | src/utils/helpers.js:93 | `lastIndexOf(c)` is -1 exactly when `c` is absent, and otherwise the index of its last occurrence. |
| `JsBuiltins.IsWhitespace` | src/utils/helpers.js:139 | The characters `trim` removes: ECMAScript white space and line terminators. |
| `JsBuiltins.Trim` | src/utils/helpers.js:139 | `trim()`: both ends trimmed. `JsBuiltins.TrimEmptyIff` states when nothing is left. |
| `JsBuiltins.TrimStart` | src/utils/helpers.js:139 | Trimming the start removes exactly a whitespace prefix and leaves no leading whitespace. |
| `JsBuiltins.TrimEnd` | src/utils/helpers.js:139 | Trimming the end removes exactly a whitespace suffix and leaves no trailing whitespace. |
| `JsBuiltins.TrimEmptyIff` | src/utils/helpers.js:139 | `trim()` gives "" exactly on whitespace-only strings. |
| `JsBuiltins.NumToString` | src/components/common/Pagination.js:31 | `String(n)` for an integer: a minus sign for negatives, then the digits. |
| `JsBuiltins.ParseInt` | src/components/common/Pagination.js:31 | `parseInt(s, 10)`: leading white space, an optional sign, the longest digit run; NaN (None) with no digit. |
| `JsBuiltins.StringToNumber` | src/store/documentSlice.js:159 | `Number(s)` on text: empty is 0, then `0x`, `0o`, `0b` integers or a signed decimal literal. The lemmas below state the forms it reads. |
| `JsBuiltins.DecimalLiteral` | src/store/documentSlice.js:159 | An unsigned decimal literal with an optional fraction and exponent, when its value is an integer. |
| `JsBuiltins.LiteralValue` | src/store/documentSlice.js:159 | The integer a literal's integer digits, fraction digits and exponent denote; None with no digit, with a malformed exponent, or with a fractional value. |
| `JsBuiltins.RadixValue` | src/store/documentSlice.js:159 | The value of a run of digits in base 2, 8 or 16; None when empty or holding a character of no value in that base. |
| `JsBuiltins.RadixPrefix` | src/store/documentSlice.js:159 | The base a `0x`, `0o` or `0b` prefix announces, in either case. |
| `JsBuiltins.MarkerRadix` | src/store/documentSlice.js:159 | The letter after a leading `0`: `x`, `o` and `b`, in either case, announce base 16, 8 and 2. |
| `JsBuiltins.NatToString` | src/components/common/Pagination.js:31 | A decimal numeral is a non-empty run of digits without a leading zero. |
| `JsBuiltins.DigitsValueOfNatToString` | src/components/common/Pagination.js:31 | Reading a printed natural number's digits gives the number back. |
| `JsBuiltins.ParseIntOfNumToString` | src/components/common/Pagination.js:31 | `parseInt(String(n), 10)` is `n`. |
| `JsBuiltins.StringToNumberOfNumToString` | src/store/documentSlice.js:159 | `Number(String(n))` is `n`. |
| `JsBuiltins.IntegerValuedNumerals` | src/store/documentSlice.js:159 | For every integer `n`, `Number` reads `String(n)` followed by ".0", by "." or by "e0" as `n`. |
| `JsBuiltins.ZeroFractionKeepsValue` | src/store/documentSlice.js:159 | A zero fraction after any digit run keeps its value. |
| `JsBuiltins.TrailingDotKeepsValue` | src/store/documentSlice.js:159 | A bare trailing dot after any digit run keeps its value. |
| `JsBuiltins.ZeroExponentKeepsValue` | src/store/documentSlice.js:159 | A zero exponent after any digit run keeps its value. |
| `JsBuiltins.DecimalLiteralWithFraction` | src/store/documentSlice.js:159 | `w.f` denotes the digits `wf` scaled by `10^-|f|`, and is an integer only when that scaling divides exactly. |
| `JsBuiltins.DecimalLiteralWithExponent` | src/store/documentSlice.js:159 | `w` followed by an exponent `e` denotes `w * 10^e`, when that is an integer. |
| `JsBuiltins.NumberOfSuffixedNumeral` | src/store/documentSlice.js:159 | `String(n)` followed by a fraction or exponent that keeps the digits' value reads back as `n`, with the sign kept. |
| `JsBuiltins.RadixNumeral` | src/store/documentSlice.js:159 | For every digit run valid in the base, `0x`, `0o` and `0b` (in either case) read it in base 16, 8 and 2. |
| `JsBuiltins.SignedRadixIsNaN` | src/store/documentSlice.js:159 | A radix numeral is no decimal literal, so a sign before `0x`, `0o` or `0b` gives NaN. |
| `JsBuiltins.HexDigits` | src/store/documentSlice.js:159 | Hexadecimal letters count 10 to 15 in either case, and a digit too large for its base is rejected. |
| `JsValues.StrictEq` | src/store/documentSlice.js:50 | `a === b`. `JsValues.StrictEqIsEquality` proves it is value equality off arrays. |
| `JsValues.ToJsString` | src/store/documentSlice.js:54 | `String(v)` for each kind of value, with arrays joined by commas. |
| `JsValues.ElementString` | src/components/common/DataTable.js:126 | How `join` prints one array element: null and undefined as "", anything else as `String` does. |
| `JsValues.ToNumber` | src/store/documentSlice.js:159 | `Number(v)`: undefined is NaN, null is 0, booleans are 0 or 1, numbers are kept, and strings and arrays go through `JsBuiltins.StringToNumber`. |
| `JsValues.Truthy` | src/store/documentSlice.js:46 | JavaScript truthiness: undefined, null, false, 0 and "" are falsy. |
| `JsValues.ArrayIncludes` | src/store/documentSlice.js:57 | `xs.includes(x)` on an array field. |
| `JsValues.Get` | src/store/documentSlice.js:50 | `record[key]` is the field's value, and undefined for a missing field. |
| `JsValues.StrictEqIsEquality` | src/store/documentSlice.js:49-52 | `===` is symmetric and is value equality on everything but arrays, which are never `===` another value here. |
| `JsValues.Join` | src/components/common/DataTable.js:126 | Joining no parts gives "", and joining one part gives that part. |
| `JsValues.IndexOf` | src/components/common/DataTable.js:52 | `indexOf` is -1 exactly when no element is `===` the value, and otherwise the first such index. |

## Left out

- Rendering: all JSX, MUI components, theme and framer-motion animation are presentation with no behaviour to state.
- Forms: the document, user and login forms delegate to Formik and Yup, which are not part of this model.
- Network and side effects: the axios client behind the user service is not part of this model. A user request is modelled by its outcome, either a response page or a failure with an optional server message. Toasts, `localStorage`, and `btoa`/`atob`/`JSON` are not modelled. A stored token is a value whose decoding is given as an optional user.
- Delays, timers and `debounce`: the `setTimeout` waits do not change any result, and timing is outside the model.
- Concurrency: overlapping fetches and the order in which their results arrive are not modelled. Each thunk is pending, then settled.
- The `useEffect` reload trigger: the handlers change the store, and reloading is modelled as an explicit `LoadDocuments` / `LoadUsers` call.
- Randomness: the mock documents are generated randomly, so the record list is a parameter of every query. `generateRandomId` is not modelled.
- The clock: `new Date().toISOString()` and `Date.now()` are parameters (`now`).
- Floating point: `formatFileSize`, `formatBytes` and JavaScript's fractional numbers are not modelled. Numbers are integers.
- `JsBuiltins.StringToNumber`: reads the numerals JavaScript's `Number` reads (decimal with an optional fraction and exponent, and `0x`, `0o`, `0b` integers). It gives None for NaN and also for a value with a fractional part and for `Infinity`, which have no integer value; no integer record id equals such a value. Integer values are exact, where JavaScript rounds them to the nearest double above 2^53.
- Date formatting: date and datetime cells and custom `format` columns are opaque cells, because date-fns is not part of this model.
- Unicode: `toLowerCase` and `trim` are modelled over ASCII letters and the common whitespace characters.
- `Sorting.StrLess`: strings are sequences of code points, so string `<` is code-point order. JavaScript compares UTF-16 code units; the two agree on the Basic Multilingual Plane and can differ when a character outside it meets one in U+E000 to U+FFFF. `Sorting.StrLessTransitive` and the other order lemmas are stated for the code-point order.
- `Helpers.TruncateString`: lengths and `slice` indices count code points. JavaScript counts UTF-16 code units, so a string with characters outside the Basic Multilingual Plane is measured and cut differently. The same holds for every string length and index in the model.
- Mixed-type sort keys: JavaScript's coercing `<` across types is replaced by a fixed order of type classes (number, then string, then boolean). Within one type the comparison is JavaScript's. Arrays, null and undefined keys tie with one another and sort before every number, string and boolean.
- Operators gt, lt, ge, le, startswith and endswith have no comparison in the pipeline and pass every record, as in the code.
- `DocumentQuery.FetchFailure`: the TypeError text is one fixed constant, not the engine's message.
- `DocumentSlice.DocumentStore.RunFetch`: requires `perPage >= 1`. For a zero page size JavaScript divides by zero and produces Infinity and NaN, which the integer model cannot represent.
- `DocumentList.LoadDocuments`: requires `perPage >= 1` for the same reason.
- `DocumentQuery.CreatedDocument`: both timestamps come from one `now`. The code reads the clock twice, and the two reads can differ by a millisecond.
- The user create, update and delete payloads are not stored by their reducers, so only `UserSlice.CreatedUser` is modelled.
- `Helpers.GetFileExtensionMeaning`: stated for names of at most 2^32 characters. Longer names would make `lastIndexOf(...) - 1 >>> 0` wrap differently, and browsers do not allow such strings.
- `FilterPanel.CompatibleOperatorsNumeric`: the menu for each field type is stated by membership together with `FilterPanel.CompatibleOperatorsInTableOrder`, rather than as a literal list. The two together fix the list.
- `FilterPanel.OperatorLabelGreaterThan`: operator labels are shown on a first, a last and a missing row, with the general lookup given by `FilterPanel.OperatorLabel`.
- Routing and the protected-route gate (`App.js`, `ProtectedRoute.js`) and the store configuration are library wiring.
- `hoveredRowId` in the data table is hover styling only.

## Findings

| source | as written | input that shows it | evidently intended | confidence | as-written member | corrected member |
|---|---|---|---|---|---|---|
| src/store/userSlice.js:12 | The user service throws a bare string (src/services/userService.js:8). `fetchUsers` rejects with `error.message`, which is undefined on a string, so `state.error` becomes undefined. | Any failed user request, for example one where the server answers with message "Bad request". | The rejection carries the thrown text, which is the server's message or "Failed to fetch users". | not executed | `UserSlice.FetchUsersRejectionLosesMessage` | `UserSlice.FetchUsersRejection` |
