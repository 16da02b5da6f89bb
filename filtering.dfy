/**
 * The two "keep" stages of the document query pipeline: the case-insensitive
 * search over title, description and creator, and the AND of the filter
 * clauses with their small operator set.
 */
module Filtering {
  import opened Wrappers
  import opened JsBuiltins
  import opened JsValues
  import opened Seqs
  import opened ListQuery

  // ---------------------------------------------------------------------------
  // Search stage

  /** The text fields the document search looks in, in the order it tries them. */
  const SearchFields := ["title", "description", "created_by"]

  /**
   * Whether the lower-cased search term `term` occurs in the lower-cased text
   * of field `key`; None when the field is not a string, where
   * `doc[key].toLowerCase()` throws a TypeError.
   */
  function FieldMatch(d: Record, key: string, term: string): Option<bool>
  {
    match Get(d, key)
    case Str(text) => Some(Includes(Lower(text), term))
    case _ => None
  }

  /**
   * The search callback with `||` short-circuiting: a later field is only
   * read when the earlier ones did not match. None: the callback threw.
   */
  function SearchEval(d: Record, term: string): Option<bool>
  {
    match FieldMatch(d, "title", term)
    case None => None
    case Some(true) => Some(true)
    case Some(false) =>
      match FieldMatch(d, "description", term)
      case None => None
      case Some(true) => Some(true)
      case Some(false) => FieldMatch(d, "created_by", term)
  }

  /** The search condition itself: some search field is text containing the term, ignoring case. */
  predicate MatchesSearch(d: Record, search: string)
  {
    exists k :: 0 <= k < |SearchFields| && Get(d, SearchFields[k]).Str?
      && Includes(Lower(Get(d, SearchFields[k]).s), Lower(search))
  }

  /** The search condition as a filter callback. */
  function SearchFilter(search: string): Record -> bool
  {
    d => MatchesSearch(d, search)
  }

  /** Every search field holds a string, so the callback cannot throw. */
  predicate HasTextFields(d: Record)
  {
    forall k :: 0 <= k < |SearchFields| ==> Get(d, SearchFields[k]).Str?
  }

  /**
   * What the callback decides is the search condition: when it returns, it
   * returns whether the record matches; on a record whose three fields are
   * text it always returns.
   */
  lemma SearchEvalMeaning(d: Record, search: string)
    ensures SearchEval(d, Lower(search)) == Some(true) ==> MatchesSearch(d, search)
    ensures SearchEval(d, Lower(search)) == Some(false) ==> !MatchesSearch(d, search)
    ensures HasTextFields(d) ==> SearchEval(d, Lower(search)) == Some(MatchesSearch(d, search))
  {
    var term := Lower(search);
    if SearchEval(d, term) == Some(true) {
      if FieldMatch(d, "title", term) == Some(true) {
        assert SearchFields[0] == "title";
      } else if FieldMatch(d, "description", term) == Some(true) {
        assert SearchFields[1] == "description";
      } else {
        assert SearchFields[2] == "created_by";
      }
    }
    if HasTextFields(d) {
      assert Get(d, SearchFields[0]).Str? && Get(d, SearchFields[1]).Str? && Get(d, SearchFields[2]).Str?;
    }
  }

  /** `docs.filter(callback)` with the exception escaping: None when the callback throws on any record. */
  function SearchAll(docs: seq<Record>, term: string): (r: Option<seq<Record>>)
    decreases |docs|
  {
    if docs == [] then Some([])
    else
      match SearchEval(docs[0], term)
      case None => None
      case Some(keep) =>
        match SearchAll(docs[1..], term)
        case None => None
        case Some(rest) => Some(if keep then [docs[0]] + rest else rest)
  }

  /** An empty search keeps everything; otherwise the lower-cased term is searched for. */
  function SearchStage(docs: seq<Record>, search: string): Option<seq<Record>>
  {
    if search == "" then Some(docs) else SearchAll(docs, Lower(search))
  }

  /**
   * The search stage keeps exactly the records matching the search, in order,
   * and fails exactly when the callback throws on some record.
   */
  lemma SearchAllMeaning(docs: seq<Record>, search: string)
    ensures SearchAll(docs, Lower(search)).None?
      <==> exists i :: 0 <= i < |docs| && SearchEval(docs[i], Lower(search)).None?
    ensures SearchAll(docs, Lower(search)).Some? ==>
      SearchAll(docs, Lower(search)).value == Filter(docs, SearchFilter(search))
  {
    SearchAllFails(docs, search);
    SearchAllKeeps(docs, search);
  }

  /** The search fails exactly when the callback throws on some record. */
  lemma {:induction false} SearchAllFails(docs: seq<Record>, search: string)
    ensures SearchAll(docs, Lower(search)).None?
      <==> exists i :: 0 <= i < |docs| && SearchEval(docs[i], Lower(search)).None?
    decreases |docs|
  {
    if docs != [] {
      var term := Lower(search);
      SearchAllFails(docs[1..], search);
      assert forall i :: 1 <= i < |docs| ==> docs[i] == docs[1..][i - 1];
      if SearchEval(docs[0], term).Some? && SearchAll(docs[1..], term).None? {
        var j :| 0 <= j < |docs[1..]| && SearchEval(docs[1..][j], term).None?;
        assert SearchEval(docs[j + 1], term).None?;
      }
    }
  }

  /** When the search returns, it keeps exactly the matching records, in order. */
  lemma {:induction false} SearchAllKeeps(docs: seq<Record>, search: string)
    ensures SearchAll(docs, Lower(search)).Some? ==>
      SearchAll(docs, Lower(search)).value == Filter(docs, SearchFilter(search))
    decreases |docs|
  {
    var term := Lower(search);
    if docs != [] && SearchAll(docs, term).Some? {
      var keep, rest := SearchEval(docs[0], term).value, SearchAll(docs[1..], term).value;
      assert SearchAll(docs, term).value == if keep then [docs[0]] + rest else rest;
      SearchAllKeeps(docs[1..], search);
      SearchEvalMeaning(docs[0], search);
      assert SearchFilter(search)(docs[0]) == keep;
      assert docs == [docs[0]] + docs[1..];
      FilterCons(docs[0], docs[1..], SearchFilter(search));
    }
  }

  /** Search stage, stated whole: empty keeps all; otherwise Some(the matching records) unless a record throws. */
  lemma SearchStageMeaning(docs: seq<Record>, search: string)
    ensures search == "" ==> SearchStage(docs, search) == Some(docs)
    ensures search != "" && SearchStage(docs, search).Some? ==>
      SearchStage(docs, search).value == Filter(docs, SearchFilter(search))
    ensures (forall i :: 0 <= i < |docs| ==> HasTextFields(docs[i])) ==> SearchStage(docs, search).Some?
    ensures forall d :: d in docs && SearchStage(docs, search).Some? && search != "" ==>
      (d in SearchStage(docs, search).value <==> MatchesSearch(d, search))
  {
    SearchAllMeaning(docs, search);
    if forall i :: 0 <= i < |docs| ==> HasTextFields(docs[i]) {
      forall i | 0 <= i < |docs| ensures SearchEval(docs[i], Lower(search)).Some? {
        SearchEvalMeaning(docs[i], search);
      }
    }
  }

  /** The search ignores case: upper- and lower-case spellings of a term find the same records. */
  lemma SearchIgnoresCase(docs: seq<Record>, search: string)
    requires search != ""
    ensures SearchStage(docs, Lower(search)) == SearchStage(docs, search)
  {
    LowerIdempotent(search);
  }

  // ---------------------------------------------------------------------------
  // Filter stage

  /** `!key || !op || value === undefined`: a clause that does not constrain anything. */
  predicate IsInert(c: Clause)
  {
    c.key == "" || c.op == "" || c.value.Undefined?
  }

  /** The `every` callback: one clause tested against one record (lines 44-62). */
  predicate ClauseHolds(d: Record, c: Clause)
  {
    if IsInert(c) then true
    else
      var field := Get(d, c.key);
      if c.op == "eq" then StrictEq(field, c.value)
      else if c.op == "ne" then !StrictEq(field, c.value)
      else if c.op == "contains" then Includes(Lower(ToJsString(field)), Lower(ToJsString(c.value)))
      else if c.op == "in" then field.Arr? && ArrayIncludes(field.elems, c.value)
      else true
  }

  /** `filters.every(callback)`, clause by clause from the left. */
  predicate MatchesAll(d: Record, cs: seq<Clause>)
    decreases |cs|
  {
    if cs == [] then true else ClauseHolds(d, cs[0]) && MatchesAll(d, cs[1..])
  }

  /** The clause list as a filter callback. */
  function ClauseFilter(cs: seq<Clause>): Record -> bool
  {
    d => MatchesAll(d, cs)
  }

  /** The clause filter runs only when there is at least one clause. */
  function FilterStage(docs: seq<Record>, cs: seq<Clause>): seq<Record>
  {
    if |cs| > 0 then Filter(docs, ClauseFilter(cs)) else docs
  }

  /** `every` is the conjunction of all clauses, so the clause list acts as an AND. */
  lemma {:induction false} MatchesAllIsConjunction(d: Record, cs: seq<Clause>)
    ensures MatchesAll(d, cs) <==> forall i :: 0 <= i < |cs| ==> ClauseHolds(d, cs[i])
    decreases |cs|
  {
    if cs != [] {
      MatchesAllIsConjunction(d, cs[1..]);
      assert forall i :: 1 <= i < |cs| ==> cs[i] == cs[1..][i - 1];
    }
  }

  /** Clause lists combine by AND: the order and grouping of clauses does not matter. */
  lemma MatchesAllAppend(d: Record, a: seq<Clause>, b: seq<Clause>)
    ensures MatchesAll(d, a + b) <==> MatchesAll(d, a) && MatchesAll(d, b)
  {
    MatchesAllIsConjunction(d, a);
    MatchesAllIsConjunction(d, b);
    MatchesAllIsConjunction(d, a + b);
    assert forall i :: 0 <= i < |b| ==> (a + b)[|a| + i] == b[i];
    assert forall i :: 0 <= i < |a| ==> (a + b)[i] == a[i];
    if MatchesAll(d, a) && MatchesAll(d, b) {
      forall i | 0 <= i < |a + b| ensures ClauseHolds(d, (a + b)[i]) {
        if i >= |a| { assert (a + b)[i] == b[i - |a|]; }
      }
    }
  }

  /** With no clauses the stage is a no-op, which is also what filtering by an empty `every` gives. */
  lemma FilterStageMeaning(docs: seq<Record>, cs: seq<Clause>)
    ensures FilterStage(docs, cs) == Filter(docs, ClauseFilter(cs))
    ensures forall d :: d in FilterStage(docs, cs) <==>
      d in docs && forall i :: 0 <= i < |cs| ==> ClauseHolds(d, cs[i])
    ensures |FilterStage(docs, cs)| <= |docs|
  {
    if cs == [] {
      FilterAll(docs, ClauseFilter(cs));
    }
    forall d ensures MatchesAll(d, cs) <==> forall i :: 0 <= i < |cs| ==> ClauseHolds(d, cs[i]) {
      MatchesAllIsConjunction(d, cs);
    }
  }

  /** An inert clause (empty key, empty operator or undefined value) passes every record. */
  lemma InertClausePasses(d: Record, c: Clause)
    requires c.key == "" || c.op == "" || c.value == Undefined
    ensures ClauseHolds(d, c)
  {
  }

  /** `eq` and `ne` are strict equality and its negation, so an active clause passes under exactly one of them. */
  lemma EqNeComplement(d: Record, key: string, v: Value)
    requires key != "" && !v.Undefined?
    ensures ClauseHolds(d, Clause(key, "eq", v)) <==> StrictEq(Get(d, key), v)
    ensures ClauseHolds(d, Clause(key, "ne", v)) <==> !ClauseHolds(d, Clause(key, "eq", v))
  {
  }

  /** `eq` against a scalar value is plain equality of the field with that value. */
  lemma EqOnScalars(d: Record, key: string, v: Value)
    requires key != "" && !v.Undefined? && !v.Arr?
    ensures ClauseHolds(d, Clause(key, "eq", v)) <==> Get(d, key) == v
  {
    StrictEqIsEquality(v, Get(d, key));
  }

  /** `contains` compares the text forms case-insensitively: re-casing the clause value changes nothing. */
  lemma ContainsIgnoresCase(d: Record, key: string, text: string)
    requires key != ""
    ensures ClauseHolds(d, Clause(key, "contains", Str(text)))
      == ClauseHolds(d, Clause(key, "contains", Str(Lower(text))))
    ensures Get(d, key).Str? ==>
      (ClauseHolds(d, Clause(key, "contains", Str(text))) <==> Includes(Lower(Get(d, key).s), Lower(text)))
  {
    LowerIdempotent(text);
  }

  /** `in` passes only on an array field holding the value; a scalar or missing field never passes. */
  lemma InNeedsArrayField(d: Record, key: string, v: Value)
    requires key != "" && !v.Undefined?
    ensures ClauseHolds(d, Clause(key, "in", v)) <==>
      Get(d, key).Arr? && exists i :: 0 <= i < |Get(d, key).elems| && StrictEq(Get(d, key).elems[i], v)
    ensures !Get(d, key).Arr? ==> !ClauseHolds(d, Clause(key, "in", v))
  {
  }

  /** Every operator without a case of its own (gt, lt, ge, le, startswith, endswith, anything else) passes. */
  lemma OtherOperatorsPass(d: Record, c: Clause)
    requires c.op !in {"eq", "ne", "contains", "in"}
    ensures ClauseHolds(d, c)
  {
  }
}
