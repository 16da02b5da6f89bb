/**
 * The data table's pure decisions: which direction a header click asks for,
 * which rows are selected, the select-all checkbox's two flags, how a cell
 * value is shown when no formatter is given, the status chip's colour class,
 * and how many columns the empty-state row spans.
 */
module DataTable {
  import opened JsBuiltins
  import opened JsValues

  // ---------------------------------------------------------------------------
  // Sorting by header click

  /** The direction `handleSort` asks for when the header of `columnId` is clicked. */
  function NextSortOrder(sortBy: string, sortOrder: string, columnId: string): (r: string)
    ensures r == "desc" <==> sortBy == columnId && sortOrder == "asc"
    ensures r == "asc" || r == "desc"
  {
    if sortBy == columnId && sortOrder == "asc" then "desc" else "asc"
  }

  /**
   * Clicking the same column again flips the direction, with no third state;
   * a different column always starts ascending.
   */
  lemma SortClicksAlternate(sortBy: string, sortOrder: string, columnId: string)
    ensures var first := NextSortOrder(sortBy, sortOrder, columnId);
      && NextSortOrder(columnId, first, columnId) != first
      && NextSortOrder(columnId, NextSortOrder(columnId, first, columnId), columnId) == first
    ensures columnId != sortBy ==> NextSortOrder(sortBy, sortOrder, columnId) == "asc"
    ensures NextSortOrder(columnId, "asc", columnId) == "desc"
    ensures NextSortOrder(columnId, "desc", columnId) == "asc"
  {
  }

  /** The arrow a header shows: the stored direction on the sorted column, ascending elsewhere. */
  function HeaderDirection(sortBy: string, sortOrder: string, columnId: string): (r: string)
    ensures columnId != sortBy ==> r == "asc"
    ensures columnId == sortBy ==> r == sortOrder
  {
    if sortBy == columnId then sortOrder else "asc"
  }

  /**
   * On the sorted column a click asks for the opposite of the arrow shown (when
   * the stored direction is asc or desc); on any other column it asks for the
   * ascending arrow that column already shows.
   */
  lemma ClickAgainstShownDirection(sortBy: string, sortOrder: string, columnId: string)
    ensures columnId == sortBy && (sortOrder == "asc" || sortOrder == "desc") ==>
      NextSortOrder(sortBy, sortOrder, columnId) != HeaderDirection(sortBy, sortOrder, columnId)
    ensures columnId != sortBy ==>
      NextSortOrder(sortBy, sortOrder, columnId) == HeaderDirection(sortBy, sortOrder, columnId)
  {
  }

  // ---------------------------------------------------------------------------
  // Selection

  /** `selectedItems.indexOf(id) !== -1`. */
  predicate IsSelected(selected: seq<Value>, id: Value)
  {
    IndexOf(selected, id) != -1
  }

  /** A row is selected exactly when some selected id is `===` its id; for scalar ids, when the id is in the list. */
  lemma IsSelectedMeaning(selected: seq<Value>, id: Value)
    ensures IsSelected(selected, id) <==> exists i :: 0 <= i < |selected| && StrictEq(selected[i], id)
    ensures !id.Arr? ==> (IsSelected(selected, id) <==> id in selected)
    ensures IsSelected(selected, id) <==> ArrayIncludes(selected, id)
  {
    if !id.Arr? {
      forall i | 0 <= i < |selected| ensures StrictEq(selected[i], id) <==> selected[i] == id {
        StrictEqIsEquality(id, selected[i]);
      }
    }
  }

  /** The select-all checkbox is ticked when every row of a non-empty page is selected. */
  predicate AllChecked(selectedCount: nat, rowCount: nat)
  {
    rowCount > 0 && selectedCount == rowCount
  }

  /** The select-all checkbox is half-ticked when some but not all rows are selected. */
  predicate Indeterminate(selectedCount: nat, rowCount: nat)
  {
    selectedCount > 0 && selectedCount < rowCount
  }

  /**
   * The two flags never hold together; with no selection neither holds; and
   * when the selection is no larger than the page, some selection makes
   * exactly one of them hold.
   */
  lemma SelectAllFlags(selectedCount: nat, rowCount: nat)
    ensures !(AllChecked(selectedCount, rowCount) && Indeterminate(selectedCount, rowCount))
    ensures selectedCount == 0 ==> !AllChecked(selectedCount, rowCount) && !Indeterminate(selectedCount, rowCount)
    ensures 0 < selectedCount <= rowCount ==> AllChecked(selectedCount, rowCount) != Indeterminate(selectedCount, rowCount)
    ensures selectedCount > rowCount ==> !AllChecked(selectedCount, rowCount) && !Indeterminate(selectedCount, rowCount)
  {
  }

  // ---------------------------------------------------------------------------
  // Cell content

  /** The colour class of a status chip. */
  datatype Tone = Success | Disabled | Warning | Info | Neutral

  /**
   * `value?.toLowerCase?.()` matched against the known statuses; a value that
   * is not a string has no `toLowerCase` and falls to the default.
   */
  function StatusTone(v: Value): (r: Tone)
  {
    if !v.Str? then Neutral
    else
      var s := Lower(v.s);
      if s == "active" || s == "published" then Success
      else if s == "inactive" || s == "archived" then Disabled
      else if s == "on leave" || s == "under review" then Warning
      else if s == "remote" || s == "draft" then Info
      else Neutral
  }

  /** The classification ignores letter case, and only strings are ever classified. */
  lemma StatusToneIgnoresCase(s: string)
    ensures StatusTone(Str(s)) == StatusTone(Str(Lower(s)))
    ensures forall v: Value :: !v.Str? ==> StatusTone(v) == Neutral
  {
    LowerIdempotent(s);
  }

  /** The eight statuses the chip knows, in lower case. */
  const KnownStatuses: set<string> :=
    {"active", "published", "inactive", "archived", "on leave", "under review", "remote", "draft"}

  /** A string is classified neutral exactly when its lower-cased form is none of the known statuses. */
  lemma StatusToneNeutralIff(s: string)
    ensures StatusTone(Str(s)) == Neutral <==> Lower(s) !in KnownStatuses
  {
  }

  /** The eight known statuses, in lower case, land in their four classes; anything else is neutral. */
  lemma StatusToneClasses()
    ensures StatusTone(Str("active")) == Success && StatusTone(Str("published")) == Success
    ensures StatusTone(Str("inactive")) == Disabled && StatusTone(Str("archived")) == Disabled
    ensures StatusTone(Str("on leave")) == Warning && StatusTone(Str("under review")) == Warning
    ensures StatusTone(Str("remote")) == Info && StatusTone(Str("draft")) == Info
    ensures StatusTone(Str("pending")) == Neutral && StatusTone(Null) == Neutral && StatusTone(Num(1)) == Neutral
    ensures forall s :: Lower(s) !in KnownStatuses ==> StatusTone(Str(s)) == Neutral
  {
    forall s | Lower(s) !in KnownStatuses
      ensures StatusTone(Str(s)) == Neutral
    {
      StatusToneNeutralIff(s);
    }
    LowerOfLowerCase("active");
    LowerOfLowerCase("published");
    LowerOfLowerCase("inactive");
    LowerOfLowerCase("archived");
    LowerOfLowerCase("on leave");
    LowerOfLowerCase("under review");
    LowerOfLowerCase("remote");
    LowerOfLowerCase("draft");
    LowerOfLowerCase("pending");
  }

  /** Lower-casing a capitalised word only lowers its first letter. */
  lemma LowerCapitalised(c: char, rest: string)
    requires IsUpper(c)
    requires forall i :: 0 <= i < |rest| ==> !IsUpper(rest[i])
    ensures Lower([c] + rest) == [LowerChar(c)] + rest
  {
  }

  /** Capitalised forms, as the seeded data writes them, are classified like the lower-case ones. */
  lemma StatusToneCapitalised()
    ensures StatusTone(Str("Active")) == Success
    ensures StatusTone(Str("Draft")) == Info
  {
    LowerCapitalised('A', "ctive");
    assert Lower("Active") == "active" by {
      assert "Active" == ['A'] + "ctive";
      assert "active" == [LowerChar('A')] + "ctive";
    }
    LowerCapitalised('D', "raft");
    assert Lower("Draft") == "draft" by {
      assert "Draft" == ['D'] + "raft";
      assert "draft" == [LowerChar('D')] + "raft";
    }
  }

  /** A column as the table reads it: its field, its type and whether it brings its own formatter. */
  datatype Column = Column(id: string, columnType: string, hasFormat: bool)

  /** What a cell shows. Formatted and date cells are produced by code the model leaves out. */
  datatype Cell =
    | CustomFormat(value: Value)
    | DateTime(value: Value)
    | Date(value: Value)
    | StatusChip(tone: Tone, caption: Value)
    | Text(shown: Value)

  /** `value.join(', ')`: each element as `join` prints it, separated by a comma and a space. */
  function JoinCell(v: Value): string
    requires v.Arr?
  {
    Join(seq(|v.elems|, i requires 0 <= i < |v.elems| => ElementString(v.elems[i], v)), ", ")
  }

  /** The last two branches of `renderCellContent`: arrays joined, missing values as a dash, the rest verbatim. */
  function FallbackCell(v: Value): (r: Value)
    ensures v.Arr? ==> r == Str(JoinCell(v))
    ensures v.Undefined? || v.Null? ==> r == Str("—")
    ensures !v.Arr? && !v.Undefined? && !v.Null? ==> r == v
  {
    if v.Arr? then Str(JoinCell(v))
    else if v.Undefined? || v.Null? then Str("—")
    else v
  }

  /** A fallback cell is never empty-valued and never an array. */
  lemma FallbackCellShowsScalar(v: Value)
    ensures !FallbackCell(v).Undefined? && !FallbackCell(v).Null? && !FallbackCell(v).Arr?
    ensures v.Arr? && v.elems == [] ==> FallbackCell(v) == Str("")
    ensures v.Arr? && |v.elems| == 1 && v.elems[0].Str? ==> FallbackCell(v) == v.elems[0]
  {
    if v.Arr? && |v.elems| == 1 && v.elems[0].Str? {
      var parts := seq(|v.elems|, i requires 0 <= i < |v.elems| => ElementString(v.elems[i], v));
      assert v.elems[0] < v;
      assert ElementString(v.elems[0], v) == ToJsString(v.elems[0]) == v.elems[0].s;
      assert parts[0] == v.elems[0].s;
    }
  }

  /** `renderCellContent(column, row)`: the formatter, then dates, then status, then the fallbacks. */
  function RenderCell(column: Column, row: Record): (r: Cell)
    ensures column.hasFormat ==> r.CustomFormat?
    ensures !column.hasFormat && column.columnType == "status" ==> r == StatusChip(StatusTone(Get(row, column.id)), Get(row, column.id))
    ensures !column.hasFormat && column.columnType != "status" && !Truthy(Get(row, column.id)) ==> r == Text(FallbackCell(Get(row, column.id)))
    ensures !column.hasFormat && column.columnType != "status" && column.columnType != "date" && column.columnType != "datetime" ==>
      r == Text(FallbackCell(Get(row, column.id)))
  {
    var value := Get(row, column.id);
    if column.hasFormat then CustomFormat(value)
    else if column.columnType == "datetime" && Truthy(value) then DateTime(value)
    else if column.columnType == "date" && Truthy(value) then Date(value)
    else if column.columnType == "status" then StatusChip(StatusTone(value), value)
    else Text(FallbackCell(value))
  }

  // ---------------------------------------------------------------------------
  // Layout

  /** One header cell: the select-all box, a column, or the actions column. */
  datatype HeaderCell = SelectAllCell | ColumnCell(id: string) | ActionsCell

  /** The header row: the select-all box when selectable, one cell per column, the actions cell when any handler is given. */
  function HeaderCells(columns: seq<Column>, selectable: bool, hasActions: bool): (r: seq<HeaderCell>)
    ensures |r| >= |columns|
    ensures selectable <==> (|r| > 0 && r[0] == SelectAllCell)
    ensures hasActions <==> (|r| > 0 && r[|r| - 1] == ActionsCell)
  {
    (if selectable then [SelectAllCell] else [])
    + seq(|columns|, i requires 0 <= i < |columns| => ColumnCell(columns[i].id))
    + (if hasActions then [ActionsCell] else [])
  }

  /** The empty-state row's `colSpan`. */
  function EmptyRowColSpan(columns: seq<Column>, selectable: bool, hasActions: bool): nat
  {
    |columns| + (if selectable then 1 else 0) + (if hasActions then 1 else 0)
  }

  /** The "No data found" row spans exactly the header row. */
  lemma EmptyRowSpansHeader(columns: seq<Column>, selectable: bool, hasActions: bool)
    ensures EmptyRowColSpan(columns, selectable, hasActions) == |HeaderCells(columns, selectable, hasActions)|
    ensures EmptyRowColSpan(columns, selectable, hasActions) >= |columns|
  {
  }
}
