/**
 * The filter builder: the operator table, the operators a field's type
 * allows, the labels shown on clause chips, and the draft clause the user
 * edits before adding it to the clause list.
 */
module FilterPanel {
  import opened Wrappers
  import opened JsBuiltins
  import opened JsValues
  import opened Seqs
  import opened ListQuery

  /** One row of the operator table. */
  datatype OperatorInfo = OperatorInfo(value: string, caption: string, valueType: string)

  /** The operator table, in the order the menu shows it. */
  const FilterOperators := [
    OperatorInfo("eq", "Equals", "any"),
    OperatorInfo("ne", "Not Equals", "any"),
    OperatorInfo("gt", "Greater Than", "number"),
    OperatorInfo("lt", "Less Than", "number"),
    OperatorInfo("ge", "Greater Than or Equal", "number"),
    OperatorInfo("le", "Less Than or Equal", "number"),
    OperatorInfo("contains", "Contains", "string"),
    OperatorInfo("startswith", "Starts With", "string"),
    OperatorInfo("endswith", "Ends With", "string"),
    OperatorInfo("in", "In List", "array")
  ]

  /**
   * A field the panel can filter on. An empty `fieldType` or `caption` stands
   * for a missing or empty property, which the panel treats as falsy.
   */
  datatype FieldInfo = FieldInfo(id: string, caption: string, fieldType: string)

  /** `filterFields.find(f => f.id === fieldId)`. */
  function FindField(fields: seq<FieldInfo>, id: string): (r: Option<FieldInfo>)
    ensures r.None? <==> forall i :: 0 <= i < |fields| ==> fields[i].id != id
    ensures r.Some? ==> r.value in fields && r.value.id == id
    decreases |fields|
  {
    if fields == [] then None
    else if fields[0].id == id then Some(fields[0])
    else
      assert forall i :: 1 <= i < |fields| ==> fields[i] == fields[1..][i - 1];
      FindField(fields[1..], id)
  }

  /** `getFieldType`: the field's type, or "string" for an id with no field. */
  function FieldType(fields: seq<FieldInfo>, id: string): (r: string)
    ensures (forall i :: 0 <= i < |fields| ==> fields[i].id != id) ==> r == "string"
    ensures FindField(fields, id).Some? ==> r == FindField(fields, id).value.fieldType
  {
    match FindField(fields, id)
    case Some(f) => f.fieldType
    case None => "string"
  }

  /** `getFieldLabel`: the field's label, or the raw id for an id with no field. */
  function FieldLabel(fields: seq<FieldInfo>, id: string): (r: string)
    ensures (forall i :: 0 <= i < |fields| ==> fields[i].id != id) ==> r == id
    ensures FindField(fields, id).Some? ==> r == FindField(fields, id).value.caption
  {
    match FindField(fields, id)
    case Some(f) => f.caption
    case None => id
  }

  /** `FILTER_OPERATORS.find(op => op.value === operatorValue)`. */
  function FindOperator(ops: seq<OperatorInfo>, value: string): (r: Option<OperatorInfo>)
    ensures r.None? <==> forall i :: 0 <= i < |ops| ==> ops[i].value != value
    ensures r.Some? ==> r.value in ops && r.value.value == value
    decreases |ops|
  {
    if ops == [] then None
    else if ops[0].value == value then Some(ops[0])
    else
      assert forall i :: 1 <= i < |ops| ==> ops[i] == ops[1..][i - 1];
      FindOperator(ops[1..], value)
  }

  /** `getOperatorLabel`: the table's label, or the raw operator when the table has no such row. */
  function OperatorLabel(op: string): (r: string)
    ensures FindOperator(FilterOperators, op).None? ==> r == op
    ensures FindOperator(FilterOperators, op).Some? ==> r == FindOperator(FilterOperators, op).value.caption
  {
    match FindOperator(FilterOperators, op)
    case Some(o) => o.caption
    case None => op
  }

  /** A filter callback keeping the operators whose value is listed. */
  function ValueIn(values: seq<string>): OperatorInfo -> bool
  {
    (o: OperatorInfo) => o.value in values
  }

  const NumericOperators := ["eq", "ne", "gt", "lt", "ge", "le"]
  const BooleanOperators := ["eq", "ne"]
  const ArrayOperators := ["contains", "in"]
  const TextOperators := ["eq", "ne", "contains", "startswith", "endswith"]

  /** The operator values a field type allows; None for a falsy type, which allows the whole table. */
  function AllowedValues(fieldType: string): Option<seq<string>>
  {
    if fieldType == "" then None
    else if fieldType == "number" || fieldType == "date" || fieldType == "datetime" then Some(NumericOperators)
    else if fieldType == "boolean" then Some(BooleanOperators)
    else if fieldType == "array" then Some(ArrayOperators)
    else Some(TextOperators)
  }

  /** `getCompatibleOperators`: the table rows a field's type allows, in table order. */
  function CompatibleOperators(fields: seq<FieldInfo>, id: string): seq<OperatorInfo>
  {
    match AllowedValues(FieldType(fields, id))
    case None => FilterOperators
    case Some(values) => Filter(FilterOperators, ValueIn(values))
  }

  /** A type with a value list allows exactly the table rows whose value is listed. */
  lemma CompatibleOperatorsAllowed(fields: seq<FieldInfo>, id: string)
    requires AllowedValues(FieldType(fields, id)).Some?
    ensures forall o :: o in CompatibleOperators(fields, id) <==>
      o in FilterOperators && o.value in AllowedValues(FieldType(fields, id)).value
  {
  }

  /** A falsy type allows the whole table. */
  lemma CompatibleOperatorsUntyped(fields: seq<FieldInfo>, id: string)
    requires FieldType(fields, id) == ""
    ensures CompatibleOperators(fields, id) == FilterOperators
  {
  }

  /** Numeric and date types allow exactly the rows eq, ne, gt, lt, ge, le. */
  lemma CompatibleOperatorsNumeric(fields: seq<FieldInfo>, id: string)
    requires FieldType(fields, id) in {"number", "date", "datetime"}
    ensures forall o :: o in CompatibleOperators(fields, id) <==> o in FilterOperators && o.value in NumericOperators
  {
    assert AllowedValues(FieldType(fields, id)) == Some(NumericOperators);
    CompatibleOperatorsAllowed(fields, id);
  }

  /** Booleans allow exactly the rows eq, ne. */
  lemma CompatibleOperatorsBoolean(fields: seq<FieldInfo>, id: string)
    requires FieldType(fields, id) == "boolean"
    ensures forall o :: o in CompatibleOperators(fields, id) <==> o in FilterOperators && o.value in BooleanOperators
  {
    assert AllowedValues(FieldType(fields, id)) == Some(BooleanOperators);
    CompatibleOperatorsAllowed(fields, id);
  }

  /** Arrays allow exactly the rows contains, in. */
  lemma CompatibleOperatorsArray(fields: seq<FieldInfo>, id: string)
    requires FieldType(fields, id) == "array"
    ensures forall o :: o in CompatibleOperators(fields, id) <==> o in FilterOperators && o.value in ArrayOperators
  {
    assert AllowedValues(FieldType(fields, id)) == Some(ArrayOperators);
    CompatibleOperatorsAllowed(fields, id);
  }

  /**
   * Any other type, and a field id with no field (whose type is "string"),
   * allows exactly the rows eq, ne, contains, startswith, endswith.
   */
  lemma CompatibleOperatorsText(fields: seq<FieldInfo>, id: string)
    requires FieldType(fields, id) !in {"", "number", "date", "datetime", "boolean", "array"}
    ensures forall o :: o in CompatibleOperators(fields, id) <==> o in FilterOperators && o.value in TextOperators
  {
    assert AllowedValues(FieldType(fields, id)) == Some(TextOperators);
    CompatibleOperatorsAllowed(fields, id);
  }

  /** A field id with no field gets the text operators. */
  lemma UnknownFieldIsText(fields: seq<FieldInfo>, id: string)
    requires forall i :: 0 <= i < |fields| ==> fields[i].id != id
    ensures FieldType(fields, id) !in {"", "number", "date", "datetime", "boolean", "array"}
  {
  }

  /** The compatible operators are always table rows, in table order. */
  lemma CompatibleOperatorsInTableOrder(fields: seq<FieldInfo>, id: string)
    ensures IsSubsequence(CompatibleOperators(fields, id), FilterOperators)
  {
    match AllowedValues(FieldType(fields, id))
    case None =>
      FilterAll(FilterOperators, o => true);
      FilterIsSubsequence(FilterOperators, o => true);
    case Some(values) =>
      FilterIsSubsequence(FilterOperators, ValueIn(values));
  }

  // ---------------------------------------------------------------------------
  // The draft clause

  /** The clause being edited; its value is the text field's string. */
  datatype Draft = Draft(key: string, op: string, value: string)

  /** The draft the panel opens with and returns to after an add. */
  const EmptyDraft := Draft("", "eq", "")

  /** Which draft property an edit targets. */
  datatype DraftField = KeyField | OpField | ValueField

  /** The clause an added draft becomes. */
  function DraftClause(d: Draft): Clause
  {
    Clause(d.key, d.op, Str(d.value))
  }

  /** `handleRemoveFilter(index)`: a copy of the list without entry `index`; the input list is a value and stays as it was. */
  function RemoveFilter(filters: seq<Clause>, index: int): (r: seq<Clause>)
    ensures 0 <= index < |filters| ==> |r| == |filters| - 1
    ensures 0 <= index < |filters| ==> r == filters[..index] + filters[index + 1..]
    ensures index >= |filters| ==> r == filters
  {
    SpliceOne(filters, index)
  }

  /** The lookup finds the first row carrying the value. */
  lemma {:induction false} FindOperatorFirst(ops: seq<OperatorInfo>, value: string, i: nat)
    requires i < |ops| && ops[i].value == value
    requires forall j :: 0 <= j < i ==> ops[j].value != value
    ensures FindOperator(ops, value) == Some(ops[i])
    decreases i
  {
    if i > 0 {
      FindOperatorFirst(ops[1..], value, i - 1);
    }
  }

  /** A chip for a table operator shows the table's caption. */
  lemma OperatorLabelGreaterThan()
    ensures OperatorLabel("gt") == "Greater Than"
  {
    FindOperatorFirst(FilterOperators, "gt", 2);
  }

  /** The last row is found too. */
  lemma OperatorLabelInList()
    ensures OperatorLabel("in") == "In List"
  {
    assert forall j :: 0 <= j < 9 ==> FilterOperators[j].value != "in";
    FindOperatorFirst(FilterOperators, "in", 9);
  }

  /** A chip for an operator the table lacks shows the raw operator. */
  lemma OperatorLabelOfUnknown()
    ensures OperatorLabel("between") == "between"
  {
    assert forall i :: 0 <= i < |FilterOperators| ==> FilterOperators[i].value != "between";
  }

  /** Removing a clause keeps every other clause, in order. */
  lemma RemoveFilterKeepsOthers(filters: seq<Clause>, index: int)
    requires 0 <= index < |filters|
    ensures forall j :: 0 <= j < |filters| - 1 ==>
      RemoveFilter(filters, index)[j] == (if j < index then filters[j] else filters[j + 1])
  {
    var r := RemoveFilter(filters, index);
    var left, right := filters[..index], filters[index + 1..];
    assert r == left + right;
    forall j | 0 <= j < |filters| - 1
      ensures r[j] == (if j < index then filters[j] else filters[j + 1])
    {
      if j < index {
        assert r[j] == left[j];
      } else {
        assert r[j] == right[j - index];
      }
    }
  }

  /** What removal leaves is a subsequence of the list it came from. */
  lemma RemoveFilterIsSubsequence(filters: seq<Clause>, index: int)
    requires 0 <= index < |filters|
    ensures IsSubsequence(RemoveFilter(filters, index), filters)
  {
    RemovedIsSubsequence(filters, index);
  }

  lemma {:induction false} RemovedIsSubsequence(filters: seq<Clause>, index: int)
    requires 0 <= index < |filters|
    ensures IsSubsequence(filters[..index] + filters[index + 1..], filters)
    decreases index
  {
    if index == 0 {
      assert filters[..0] + filters[1..] == filters[1..];
      SubsequenceSelf(filters[1..]);
      SubsequenceCons(filters[1..], filters);
    } else {
      var rest := filters[1..];
      RemovedIsSubsequence(rest, index - 1);
      var sub := filters[..index] + filters[index + 1..];
      assert sub[0] == filters[0];
      assert sub[1..] == rest[..index - 1] + rest[index..];
    }
  }

  lemma {:induction false} SubsequenceSelf(s: seq<Clause>)
    ensures IsSubsequence(s, s)
    decreases |s|
  {
    if s != [] {
      SubsequenceSelf(s[1..]);
    }
  }

  class FilterBuilder {
    var draft: Draft

    constructor()
      ensures draft == EmptyDraft
    {
      draft := EmptyDraft;
    }

    /** `handleFilterChange`: set one property; a new key or operator also clears the value. */
    method ChangeField(field: DraftField, value: string)
      modifies this
      ensures field == KeyField ==> draft == old(draft).(key := value, value := "")
      ensures field == OpField ==> draft == old(draft).(op := value, value := "")
      ensures field == ValueField ==> draft == old(draft).(value := value)
    {
      match field {
        case KeyField => draft := draft.(key := value);
        case OpField => draft := draft.(op := value);
        case ValueField => draft := draft.(value := value);
      }
      if field == KeyField || field == OpField {
        draft := draft.(value := "");
      }
    }

    /**
     * `handleAddFilter`: with a key and an operator chosen, emits the list with
     * the draft appended and resets the draft; otherwise emits nothing and
     * keeps the draft.
     */
    method AddFilter(filters: seq<Clause>) returns (emitted: Option<seq<Clause>>)
      modifies this
      ensures old(draft).key != "" && old(draft).op != "" ==>
        emitted == Some(filters + [DraftClause(old(draft))]) && draft == EmptyDraft
      ensures old(draft).key == "" || old(draft).op == "" ==>
        emitted == None && draft == old(draft)
    {
      if draft.key != "" && draft.op != "" {
        emitted := Some(filters + [DraftClause(draft)]);
        draft := EmptyDraft;
      } else {
        emitted := None;
      }
    }
  }
}
