/**
 * The sort stage of the document query pipeline: `Array.prototype.sort` with
 * the comparator of src/store/documentSlice.js:68-72, which sorts stably
 * (ECMA-262 10th edition, section 22.1.3.27). The sort is modelled as a
 * stable insertion sort; the lemmas show its result is ordered by the
 * comparator, a permutation of its input, and keeps ties in input order.
 */
module Sorting {
  import opened JsBuiltins
  import opened JsValues
  import opened Seqs
  import opened ListQuery

  // ---------------------------------------------------------------------------
  // Key order

  /**
   * Lexicographic order on code points. JavaScript's `<` on two strings
   * compares UTF-16 code units; the two orders agree on strings within the
   * Basic Multilingual Plane.
   */
  predicate StrLess(x: string, y: string)
    decreases |x|
  {
    if y == [] then false
    else if x == [] then true
    else if x[0] != y[0] then x[0] < y[0]
    else StrLess(x[1..], y[1..])
  }

  lemma {:induction false} StrLessIrreflexive(x: string)
    ensures !StrLess(x, x)
    decreases |x|
  {
    if x != [] { StrLessIrreflexive(x[1..]); }
  }

  lemma {:induction false} StrLessTransitive(x: string, y: string, z: string)
    requires StrLess(x, y) && StrLess(y, z)
    ensures StrLess(x, z)
    decreases |x|
  {
    if x != [] && x[0] == y[0] && y[0] == z[0] {
      StrLessTransitive(x[1..], y[1..], z[1..]);
    }
  }

  lemma {:induction false} StrLessTotal(x: string, y: string)
    ensures x == y || StrLess(x, y) || StrLess(y, x)
    decreases |x|
  {
    if x != [] && y != [] && x[0] == y[0] {
      StrLessTotal(x[1..], y[1..]);
      if x[1..] == y[1..] {
        assert x == [x[0]] + x[1..] && y == [y[0]] + y[1..];
      }
    }
  }

  /**
   * The ordering class of a value: numbers, strings and booleans are each
   * ordered among themselves; `undefined`, `null` and arrays tie with one
   * another and come before every number, string and boolean.
   */
  function TypeRank(v: Value): nat
  {
    match v
    case Num(_) => 1
    case Str(_) => 2
    case Bool(_) => 3
    case _ => 0
  }

  /**
   * `a < b` on sort keys. On two numbers, two strings or two booleans it is
   * JavaScript's `<`; `undefined < undefined` and `null < null` are false as
   * in JavaScript. Across types the class order stands in for JavaScript's
   * coercions.
   */
  predicate KeyLess(a: Value, b: Value)
  {
    match (a, b)
    case (Num(x), Num(y)) => x < y
    case (Str(x), Str(y)) => StrLess(x, y)
    case (Bool(x), Bool(y)) => !x && y
    case _ => TypeRank(a) < TypeRank(b)
  }

  /** Neither key is below the other: the comparator returns 0. */
  predicate KeyTie(a: Value, b: Value)
  {
    !KeyLess(a, b) && !KeyLess(b, a)
  }

  /** `KeyLess` is a strict weak order, the condition under which a comparator sorts consistently. */
  lemma KeyLessStrictWeakOrder(a: Value, b: Value, c: Value)
    ensures !KeyLess(a, a)
    ensures KeyLess(a, b) && KeyLess(b, c) ==> KeyLess(a, c)
    ensures KeyLess(a, c) ==> KeyLess(a, b) || KeyLess(b, c)
  {
    if a.Str? { StrLessIrreflexive(a.s); }
    if a.Str? && b.Str? && c.Str? {
      if StrLess(a.s, b.s) && StrLess(b.s, c.s) { StrLessTransitive(a.s, b.s, c.s); }
      if StrLess(a.s, c.s) {
        StrLessTotal(a.s, b.s);
        StrLessTotal(b.s, c.s);
        if StrLess(b.s, a.s) && StrLess(c.s, b.s) { StrLessTransitive(c.s, b.s, a.s); }
        if StrLess(b.s, a.s) && b.s == c.s { }
        if a.s == b.s && StrLess(c.s, b.s) { }
        if StrLess(b.s, a.s) && !StrLess(b.s, c.s) {
          if StrLess(c.s, b.s) { StrLessTransitive(c.s, b.s, a.s); StrLessIrreflexive(a.s); StrLessTransitive(a.s, c.s, a.s); }
        }
      }
    }
  }

  /** Ties on sort keys are exactly equal keys within one ordering class, and they are an equivalence. */
  lemma KeyTieMeaning(a: Value, b: Value, c: Value)
    ensures KeyTie(a, a)
    ensures KeyTie(a, b) == KeyTie(b, a)
    ensures KeyTie(a, b) && KeyTie(b, c) ==> KeyTie(a, c)
    ensures a.Num? && b.Num? ==> (KeyTie(a, b) <==> a == b)
    ensures a.Str? && b.Str? ==> (KeyTie(a, b) <==> a == b)
  {
    KeyLessStrictWeakOrder(a, b, c);
    KeyLessStrictWeakOrder(a, c, b);
    KeyLessStrictWeakOrder(c, a, b);
    KeyLessStrictWeakOrder(c, b, a);
    KeyLessStrictWeakOrder(b, a, c);
    KeyLessStrictWeakOrder(b, c, a);
    if a.Str? && b.Str? { StrLessTotal(a.s, b.s); StrLessIrreflexive(a.s); }
  }

  // ---------------------------------------------------------------------------
  // Record order under a sort spec

  /**
   * The comparator returns a negative number for (a, b): with `order` "asc"
   * when a's key is below b's, with any other order when it is above.
   */
  predicate Before(a: Record, b: Record, spec: SortSpec)
  {
    if spec.order == "asc" then KeyLess(Get(a, spec.sortBy), Get(b, spec.sortBy))
    else KeyLess(Get(b, spec.sortBy), Get(a, spec.sortBy))
  }

  /** The comparator returns 0 for (a, b). */
  predicate Tie(a: Record, b: Record, spec: SortSpec)
  {
    KeyTie(Get(a, spec.sortBy), Get(b, spec.sortBy))
  }

  lemma BeforeStrictWeakOrder(a: Record, b: Record, c: Record, spec: SortSpec)
    ensures !Before(a, a, spec)
    ensures Before(a, b, spec) ==> !Before(b, a, spec)
    ensures Before(a, c, spec) ==> Before(a, b, spec) || Before(b, c, spec)
    ensures Before(a, b, spec) ==> !Tie(a, b, spec)
    ensures !Before(a, b, spec) && !Before(b, a, spec) <==> Tie(a, b, spec)
  {
    var ka, kb, kc := Get(a, spec.sortBy), Get(b, spec.sortBy), Get(c, spec.sortBy);
    KeyLessStrictWeakOrder(ka, kb, kc);
    KeyLessStrictWeakOrder(kc, kb, ka);
    KeyLessStrictWeakOrder(ka, kb, ka);
    KeyLessStrictWeakOrder(kb, ka, kb);
  }

  /** The comparator of the sort stage, as the "sorts strictly before" relation it induces. */
  function Comparator(spec: SortSpec): (Record, Record) -> bool
  {
    (a, b) => Before(a, b, spec)
  }

  lemma ComparatorIsStrictWeakOrder(spec: SortSpec)
    ensures StrictWeakOrder(Comparator(spec))
  {
    var lt := Comparator(spec);
    forall a, b, c
      ensures !lt(a, a)
      ensures lt(a, b) && lt(b, c) ==> lt(a, c)
      ensures lt(a, c) ==> lt(a, b) || lt(b, c)
    {
      BeforeStrictWeakOrder(a, b, c, spec);
      var ka, kb, kc := Get(a, spec.sortBy), Get(b, spec.sortBy), Get(c, spec.sortBy);
      KeyLessStrictWeakOrder(ka, kb, kc);
      KeyLessStrictWeakOrder(kc, kb, ka);
    }
  }

  // ---------------------------------------------------------------------------
  // A stable sort under any strict weak order

  /** `lt` is irreflexive, transitive, and its incomparability is transitive. */
  ghost predicate StrictWeakOrder<T(!new)>(lt: (T, T) -> bool)
  {
    && (forall a :: !lt(a, a))
    && (forall a, b, c :: lt(a, b) && lt(b, c) ==> lt(a, c))
    && (forall a, b, c :: lt(a, c) ==> lt(a, b) || lt(b, c))
  }

  /** No element is placed before an earlier one it should follow. */
  ghost predicate Sorted<T>(s: seq<T>, lt: (T, T) -> bool)
  {
    forall i, j :: 0 <= i < j < |s| ==> !lt(s[j], s[i])
  }

  /** Whether an element ties with `x`: neither sorts before the other. */
  function TieWith<T>(x: T, lt: (T, T) -> bool): T -> bool
  {
    r => !lt(r, x) && !lt(x, r)
  }

  /** The elements of `s` the comparator ties with `x`, in their order in `s`. */
  function TiesOf<T(!new)>(s: seq<T>, x: T, lt: (T, T) -> bool): seq<T>
  {
    Filter(s, TieWith(x, lt))
  }

  /** Elements that tie keep their relative input order. */
  ghost predicate Stable<T(!new)>(out: seq<T>, input: seq<T>, lt: (T, T) -> bool)
  {
    forall x :: TiesOf(out, x, lt) == TiesOf(input, x, lt)
  }

  /** Inserts `x` in front of the first element it does not follow. */
  function Insert<T>(x: T, t: seq<T>, lt: (T, T) -> bool): (r: seq<T>)
    ensures multiset(r) == multiset(t) + multiset{x}
    ensures |r| == |t| + 1
    decreases |t|
  {
    if t == [] then [x]
    else if lt(t[0], x) then
      assert t == [t[0]] + t[1..];
      [t[0]] + Insert(x, t[1..], lt)
    else [x] + t
  }

  /** Insertion sort, which never moves an element past one it ties with. */
  function InsertionSort<T>(s: seq<T>, lt: (T, T) -> bool): seq<T>
    decreases |s|
  {
    if s == [] then [] else Insert(s[0], InsertionSort(s[1..], lt), lt)
  }

  /** An element that no later one sorts before can head a sorted sequence. */
  lemma SortedCons<T>(a: T, s: seq<T>, lt: (T, T) -> bool)
    requires Sorted(s, lt)
    requires forall j :: 0 <= j < |s| ==> !lt(s[j], a)
    ensures Sorted([a] + s, lt)
  {
    var r := [a] + s;
    forall i, j | 0 <= i < j < |r| ensures !lt(r[j], r[i]) {
      assert r[j] == s[j - 1];
      if i > 0 {
        assert r[i] == s[i - 1];
      }
    }
  }

  lemma {:induction false} InsertSorted<T(!new)>(x: T, t: seq<T>, lt: (T, T) -> bool)
    requires StrictWeakOrder(lt)
    requires Sorted(t, lt)
    ensures Sorted(Insert(x, t, lt), lt)
    decreases |t|
  {
    if t != [] {
      if lt(t[0], x) {
        var rest := Insert(x, t[1..], lt);
        InsertSorted(x, t[1..], lt);
        forall j | 0 <= j < |rest| ensures !lt(rest[j], t[0]) {
          var y := rest[j];
          assert y in multiset(t[1..]) + multiset{x} by {
            assert y in multiset(rest);
          }
          if y != x {
            var k :| 0 <= k < |t[1..]| && t[1..][k] == y;
            assert t[k + 1] == y;
          }
        }
        SortedCons(t[0], rest, lt);
      } else {
        forall j | 0 <= j < |t| ensures !lt(t[j], x) {
          if j > 0 {
            assert !lt(t[j], t[0]);
          }
        }
        SortedCons(x, t, lt);
      }
    }
  }

  lemma {:induction false} InsertTies<T(!new)>(x: T, t: seq<T>, y: T, lt: (T, T) -> bool)
    requires StrictWeakOrder(lt)
    ensures TiesOf(Insert(x, t, lt), y, lt) == TiesOf([x] + t, y, lt)
    decreases |t|
  {
    if t != [] && lt(t[0], x) {
      InsertTies(x, t[1..], y, lt);
      // t[0] sorts strictly before x, so the two never both tie with y.
      assert !(TieWith(y, lt)(t[0]) && TieWith(y, lt)(x));
      InsertTiesStep(x, t, y, lt);
    }
  }

  /** One step of InsertTies: passing over an element that does not tie together with `x` keeps the ties. */
  lemma InsertTiesStep<T(!new)>(x: T, t: seq<T>, y: T, lt: (T, T) -> bool)
    requires t != [] && lt(t[0], x)
    requires !(TieWith(y, lt)(t[0]) && TieWith(y, lt)(x))
    requires TiesOf(Insert(x, t[1..], lt), y, lt) == TiesOf([x] + t[1..], y, lt)
    ensures TiesOf(Insert(x, t, lt), y, lt) == TiesOf([x] + t, y, lt)
  {
    assert t == [t[0]] + t[1..];
    assert Insert(x, t, lt) == [t[0]] + Insert(x, t[1..], lt);
    FilterPassOver(t[0], x, t[1..], Insert(x, t[1..], lt), TieWith(y, lt));
  }

  /**
   * Filtering `a` followed by a reordering `ins` of `[x] + rest` is filtering
   * `x`, `a`, `rest`, when at most one of `a` and `x` is kept.
   */
  lemma FilterPassOver<T(!new)>(a: T, x: T, rest: seq<T>, ins: seq<T>, p: T -> bool)
    requires !(p(a) && p(x))
    requires Filter(ins, p) == Filter([x] + rest, p)
    ensures Filter([a] + ins, p) == Filter([x] + ([a] + rest), p)
  {
    FilterCons(a, ins, p);
    FilterCons(x, rest, p);
    FilterCons(x, [a] + rest, p);
    FilterCons(a, rest, p);
  }

  /** Insertion sort permutes its input. */
  lemma {:induction false} InsertionSortPermutes<T>(s: seq<T>, lt: (T, T) -> bool)
    ensures multiset(InsertionSort(s, lt)) == multiset(s)
    ensures |InsertionSort(s, lt)| == |s|
    decreases |s|
  {
    if s != [] {
      InsertionSortPermutes(s[1..], lt);
      assert s == [s[0]] + s[1..];
    }
  }

  /** Insertion sort orders its result by a strict weak order. */
  lemma {:induction false} InsertionSortSorts<T(!new)>(s: seq<T>, lt: (T, T) -> bool)
    requires StrictWeakOrder(lt)
    ensures Sorted(InsertionSort(s, lt), lt)
    decreases |s|
  {
    if s != [] {
      InsertionSortSorts(s[1..], lt);
      InsertSorted(s[0], InsertionSort(s[1..], lt), lt);
    }
  }

  /** The ties of any one element keep their input order through the sort. */
  lemma {:induction false} InsertionSortTies<T(!new)>(s: seq<T>, y: T, lt: (T, T) -> bool)
    requires StrictWeakOrder(lt)
    ensures TiesOf(InsertionSort(s, lt), y, lt) == TiesOf(s, y, lt)
    decreases |s|
  {
    if s != [] {
      var t := InsertionSort(s[1..], lt);
      InsertionSortTies(s[1..], y, lt);
      InsertTies(s[0], t, y, lt);
      FilterCons(s[0], t, TieWith(y, lt));
      assert s == [s[0]] + s[1..];
      FilterCons(s[0], s[1..], TieWith(y, lt));
    }
  }

  /** Insertion sort is stable: tied elements come out in their input order. */
  lemma InsertionSortIsStable<T(!new)>(s: seq<T>, lt: (T, T) -> bool)
    requires StrictWeakOrder(lt)
    ensures Stable(InsertionSort(s, lt), s, lt)
  {
    forall y ensures TiesOf(InsertionSort(s, lt), y, lt) == TiesOf(s, y, lt) {
      InsertionSortTies(s, y, lt);
    }
  }

  // ---------------------------------------------------------------------------
  // The sort stage

  /** `records.sort(comparator)` on the pipeline's private copy, as a value. */
  function SortRecords(s: seq<Record>, spec: SortSpec): seq<Record>
  {
    InsertionSort(s, Comparator(spec))
  }

  /**
   * The sort stage returns a permutation of its input that is non-decreasing
   * by the key for "asc" and non-increasing for any other order, with tied
   * records in their input order.
   */
  lemma SortSpecification(s: seq<Record>, spec: SortSpec)
    ensures multiset(SortRecords(s, spec)) == multiset(s)
    ensures |SortRecords(s, spec)| == |s|
    ensures forall i, j :: 0 <= i < j < |SortRecords(s, spec)| ==>
      !Before(SortRecords(s, spec)[j], SortRecords(s, spec)[i], spec)
    ensures forall x :: TiesOf(SortRecords(s, spec), x, Comparator(spec)) == TiesOf(s, x, Comparator(spec))
  {
    ComparatorIsStrictWeakOrder(spec);
    InsertionSortPermutes(s, Comparator(spec));
    InsertionSortSorts(s, Comparator(spec));
    InsertionSortIsStable(s, Comparator(spec));
  }

  /** Ascending order puts no record after one with a greater key; any other order, none after one with a smaller key. */
  lemma SortDirection(s: seq<Record>, spec: SortSpec, i: int, j: int)
    requires 0 <= i < j < |s|
    ensures |SortRecords(s, spec)| == |s|
    ensures var out := SortRecords(s, spec);
      var ki, kj := Get(out[i], spec.sortBy), Get(out[j], spec.sortBy);
      if spec.order == "asc" then !KeyLess(kj, ki) else !KeyLess(ki, kj)
  {
    SortSpecification(s, spec);
  }
}
