/**
 * JavaScript values as the list records, filter clauses and table cells hold
 * them, with the few operations on them that the source uses: property
 * lookup, strict equality, `String(v)`, `Number(v)` and `indexOf`.
 */
module JsValues {
  import opened Wrappers
  import opened JsBuiltins

  /**
   * A value stored in a record field or a clause. Numbers are modelled as
   * integers (the records' ids, sizes and counts); NaN and fractions are left out.
   */
  datatype Value =
    | Undefined
    | Null
    | Bool(b: bool)
    | Num(n: int)
    | Str(s: string)
    | Arr(elems: seq<Value>)

  /** A record: field name to value. */
  type Record = map<string, Value>

  /** `record[key]`: a missing field reads as `undefined`. */
  function Get(r: Record, key: string): (v: Value)
    ensures key !in r ==> v == Undefined
    ensures key in r ==> v == r[key]
  {
    if key in r then r[key] else Undefined
  }

  /**
   * `a === b`. Arrays are objects and compare by identity; a record never
   * shares an array object with a clause or a selection list, so an array is
   * never identical to the value it is compared with here.
   */
  predicate StrictEq(a: Value, b: Value)
  {
    match (a, b)
    case (Undefined, Undefined) => true
    case (Null, Null) => true
    case (Bool(x), Bool(y)) => x == y
    case (Num(x), Num(y)) => x == y
    case (Str(x), Str(y)) => x == y
    case _ => false
  }

  /** On everything but arrays, `===` is value equality, and it is symmetric. */
  lemma StrictEqIsEquality(a: Value, b: Value)
    ensures !a.Arr? ==> (StrictEq(a, b) <==> a == b)
    ensures a.Arr? ==> !StrictEq(a, b)
    ensures StrictEq(a, b) == StrictEq(b, a)
  {
  }

  /** `xs.join(sep)` over strings. */
  function Join(parts: seq<string>, sep: string): (r: string)
    ensures parts == [] ==> r == ""
    ensures |parts| == 1 ==> r == parts[0]
  {
    if parts == [] then ""
    else if |parts| == 1 then parts[0]
    else parts[0] + sep + Join(parts[1..], sep)
  }

  /** `String(v)`; inside `join`, `null` and `undefined` elements become "". */
  function ToJsString(v: Value): (r: string)
    decreases v
  {
    match v
    case Undefined => "undefined"
    case Null => "null"
    case Bool(b) => if b then "true" else "false"
    case Num(n) => NumToString(n)
    case Str(s) => s
    case Arr(xs) => Join(seq(|xs|, i requires 0 <= i < |xs| => ElementString(xs[i], v)), ",")
  }

  /** How `join` prints one element of `parent`. */
  function ElementString(x: Value, parent: Value): string
    requires x < parent
    decreases parent, 0
  {
    if x.Undefined? || x.Null? then "" else ToJsString(x)
  }

  /** `Number(v)` for the values the model has; NaN is None. */
  function ToNumber(v: Value): (r: Option<int>)
  {
    match v
    case Undefined => None
    case Null => Some(0)
    case Bool(b) => Some(if b then 1 else 0)
    case Num(n) => Some(n)
    case Str(s) => StringToNumber(s)
    case Arr(_) => StringToNumber(ToJsString(v))
  }

  /** A string converts as `Number` reads its text. */
  lemma ToNumberOfString(s: string)
    ensures ToNumber(Str(s)) == StringToNumber(s)
  {
  }

  /** `xs.indexOf(x)`: the first index holding a value `=== x`, or -1. */
  function IndexOf(xs: seq<Value>, x: Value): (r: int)
    ensures -1 <= r < |xs|
    ensures r == -1 <==> forall i :: 0 <= i < |xs| ==> !StrictEq(xs[i], x)
    ensures r >= 0 ==> StrictEq(xs[r], x) && forall i :: 0 <= i < r ==> !StrictEq(xs[i], x)
    decreases |xs|
  {
    if xs == [] then -1
    else if StrictEq(xs[0], x) then 0
    else
      var k := IndexOf(xs[1..], x);
      assert forall i :: 1 <= i < |xs| ==> xs[i] == xs[1..][i - 1];
      if k == -1 then -1 else k + 1
  }

  /** JavaScript truthiness: `undefined`, `null`, `false`, `0` and `""` are falsy; every array is truthy. */
  predicate Truthy(v: Value)
  {
    match v
    case Undefined => false
    case Null => false
    case Bool(b) => b
    case Num(n) => n != 0
    case Str(s) => s != ""
    case Arr(_) => true
  }

  /** `xs.includes(x)` (SameValueZero, which is `===` without NaN). */
  predicate ArrayIncludes(xs: seq<Value>, x: Value)
  {
    exists i :: 0 <= i < |xs| && StrictEq(xs[i], x)
  }
}
