/**
 * The few JavaScript built-ins the list machinery leans on, written out over
 * Dafny sequences: `slice` and `splice` index resolution, `>>> 0`,
 * ASCII `toLowerCase`, `includes`, `startsWith`, `trim`, and the decimal
 * conversions behind `String(n)`, `parseInt(s, 10)` and `Number(s)`.
 */
module JsBuiltins {
  import opened Wrappers

  // ---------------------------------------------------------------------------
  // Index arithmetic

  /** How `slice`/`splice` read a relative index: negative counts from the end, clamped to [0, len]. */
  function ResolveIndex(i: int, len: nat): (r: nat)
    ensures r <= len
    ensures 0 <= i <= len ==> r == i
    ensures i > len ==> r == len
    ensures i < 0 ==> r == (if len + i < 0 then 0 else len + i)
  {
    if i < 0 then (if len + i < 0 then 0 else len + i)
    else if i > len then len
    else i
  }

  /** `s.slice(start, end)` on an array or a string. */
  function Slice<T>(s: seq<T>, start: int, end: int): (r: seq<T>)
    ensures var from, to := ResolveIndex(start, |s|), ResolveIndex(end, |s|);
      r == if from < to then s[from..to] else []
  {
    var from, to := ResolveIndex(start, |s|), ResolveIndex(end, |s|);
    if from < to then s[from..to] else []
  }

  /** Every slice is a contiguous run of `s` no longer than the requested window. */
  lemma SliceBounds<T>(s: seq<T>, start: int, end: int)
    ensures |Slice(s, start, end)| <= |s|
    ensures start <= end ==> |Slice(s, start, end)| <= end - start
    ensures forall x :: x in Slice(s, start, end) ==> x in s
  {
    var from, to := ResolveIndex(start, |s|), ResolveIndex(end, |s|);
    if from < to {
      assert Slice(s, start, end) == s[from..to];
      if start <= end {
        if start < 0 && end < 0 {
        } else if start < 0 {
          assert from <= |s| && to <= end;
          assert from >= 0;
          assert to - from <= end - start;
        }
      }
    }
  }

  /** A copy of `s` with the element at relative index `index` removed, as `copy.splice(index, 1)` leaves it. */
  function SpliceOne<T>(s: seq<T>, index: int): (r: seq<T>)
    ensures 0 <= index < |s| ==> r == s[..index] + s[index + 1..]
    ensures index >= |s| ==> r == s
    ensures -|s| <= index < 0 ==> r == s[..|s| + index] + s[|s| + index + 1..]
    ensures |s| > 0 && index < -|s| ==> r == s[1..]
  {
    var at := ResolveIndex(index, |s|);
    if at < |s| then s[..at] + s[at + 1..] else s
  }

  /** JavaScript's `x >>> 0`: the integer read as an unsigned 32-bit word. */
  function ToUint32(x: int): (r: nat)
    ensures r < 0x1_0000_0000
    ensures 0 <= x < 0x1_0000_0000 ==> r == x
    ensures -0x1_0000_0000 <= x < 0 ==> r == x + 0x1_0000_0000
  {
    x % 0x1_0000_0000
  }

  // ---------------------------------------------------------------------------
  // Characters and strings

  predicate IsUpper(c: char) { 'A' <= c <= 'Z' }

  /** `toLowerCase` restricted to ASCII letters; every other character is kept. */
  function LowerChar(c: char): char
  {
    if IsUpper(c) then (c as int + 32) as char else c
  }

  function Lower(s: string): (r: string)
    ensures |r| == |s|
    ensures forall i :: 0 <= i < |s| ==> r[i] == LowerChar(s[i])
    ensures forall i :: 0 <= i < |s| ==> !IsUpper(r[i])
  {
    seq(|s|, i requires 0 <= i < |s| => LowerChar(s[i]))
  }

  /** Lower-casing is idempotent, so comparing lower-cased strings ignores the case of either side. */
  lemma LowerIdempotent(s: string)
    ensures Lower(Lower(s)) == Lower(s)
  {
  }

  /** A string without upper-case letters is its own lower case. */
  lemma LowerOfLowerCase(s: string)
    requires forall i :: 0 <= i < |s| ==> !IsUpper(s[i])
    ensures Lower(s) == s
  {
  }

  /** Lower-casing never produces a character that is neither a letter nor already there. */
  lemma LowerKeepsNonLetters(s: string, c: char)
    requires !('A' <= c <= 'Z') && !('a' <= c <= 'z')
    ensures c in Lower(s) <==> c in s
  {
    if c in Lower(s) {
      var i :| 0 <= i < |s| && Lower(s)[i] == c;
      assert LowerChar(s[i]) == c;
    }
    if c in s {
      var i :| 0 <= i < |s| && s[i] == c;
      assert Lower(s)[i] == c;
    }
  }

  lemma LowerAppend(s: string, t: string)
    ensures Lower(s + t) == Lower(s) + Lower(t)
  {
  }

  /** `t` occurs in `s` at offset `i`. */
  predicate OccursAt(s: string, t: string, i: int)
  {
    0 <= i && i + |t| <= |s| && s[i..i + |t|] == t
  }

  /** `s.includes(t)`: whether `t` occurs somewhere in `s`. */
  function Includes(s: string, t: string): (r: bool)
    ensures r <==> exists i :: OccursAt(s, t, i)
    decreases |s|
  {
    if |t| > |s| then
      assert forall i :: !OccursAt(s, t, i);
      false
    else if s[..|t|] == t then
      assert OccursAt(s, t, 0);
      true
    else
      var rest := Includes(s[1..], t);
      assert forall i :: 0 < i ==> (OccursAt(s, t, i) <==> OccursAt(s[1..], t, i - 1));
      if rest then
        var j :| OccursAt(s[1..], t, j);
        assert OccursAt(s, t, j + 1);
        true
      else
        assert !OccursAt(s, t, 0);
        assert forall i :: OccursAt(s, t, i) ==> OccursAt(s[1..], t, i - 1);
        false
  }

  /** Every string includes the empty string, and itself. */
  lemma IncludesTrivial(s: string)
    ensures Includes(s, "")
    ensures Includes(s, s)
  {
    assert OccursAt(s, "", 0);
    assert OccursAt(s, s, 0);
  }

  /** An occurrence survives extending the haystack on either side. */
  lemma IncludesExtend(a: string, s: string, b: string, t: string)
    requires Includes(s, t)
    ensures Includes(a + s + b, t)
  {
    var i :| OccursAt(s, t, i);
    assert (a + s + b)[|a| + i..|a| + i + |t|] == s[i..i + |t|];
    assert OccursAt(a + s + b, t, |a| + i);
  }

  /** `s.indexOf(c)` for one character: the first index holding `c`, or -1. */
  function IndexOfChar(s: string, c: char): (r: int)
    ensures -1 <= r < |s|
    ensures r == -1 <==> c !in s
    ensures r >= 0 ==> s[r] == c && c !in s[..r]
    decreases |s|
  {
    if s == [] then -1
    else if s[0] == c then 0
    else
      var k := IndexOfChar(s[1..], c);
      if k == -1 then -1
      else
        assert s[..k + 1] == [s[0]] + s[1..][..k];
        k + 1
  }

  /** The first occurrence is the one with no earlier copy of the character. */
  lemma {:induction false} IndexOfCharIsFirst(s: string, c: char, i: int)
    requires 0 <= i < |s| && s[i] == c && c !in s[..i]
    ensures IndexOfChar(s, c) == i
    decreases i
  {
    if i > 0 {
      assert s[0] == s[..i][0];
      assert s[1..][i - 1] == c;
      assert s[1..][..i - 1] == s[..i][1..];
      IndexOfCharIsFirst(s[1..], c, i - 1);
    }
  }

  /** `s.lastIndexOf(c)` for one character: the last index holding `c`, or -1. */
  function LastIndexOfChar(s: string, c: char): (r: int)
    ensures -1 <= r < |s|
    ensures r == -1 <==> c !in s
    ensures r >= 0 ==> s[r] == c && c !in s[r + 1..]
    decreases |s|
  {
    if s == [] then -1
    else if s[|s| - 1] == c then |s| - 1
    else
      var k := LastIndexOfChar(s[..|s| - 1], c);
      assert s == s[..|s| - 1] + [s[|s| - 1]];
      if k == -1 then -1
      else
        assert s[k + 1..] == s[..|s| - 1][k + 1..] + [s[|s| - 1]];
        k
  }

  /** `s.startsWith(p)`. */
  predicate StartsWith(s: string, p: string)
  {
    |p| <= |s| && s[..|p|] == p
  }

  /**
   * The characters `trim()` removes and the regular-expression class `\s`
   * matches: ECMAScript's WhiteSpace and LineTerminator code points.
   */
  predicate IsWhitespace(c: char)
  {
    c == '\t' || c == '\n' || c == '\U{000B}' || c == '\U{000C}' || c == '\r' || c == ' '
    || c == '\U{00A0}' || c == '\U{1680}' || ('\U{2000}' <= c <= '\U{200A}')
    || c == '\U{2028}' || c == '\U{2029}' || c == '\U{202F}' || c == '\U{205F}'
    || c == '\U{3000}' || c == '\U{FEFF}'
  }

  predicate AllWhitespace(s: string)
  {
    forall i :: 0 <= i < |s| ==> IsWhitespace(s[i])
  }

  /** `trimStart()`: drop leading whitespace. */
  function TrimStart(s: string): (r: string)
    ensures |r| <= |s| && r == s[|s| - |r|..]
    ensures AllWhitespace(s[..|s| - |r|])
    ensures r == [] || !IsWhitespace(r[0])
  {
    if s != [] && IsWhitespace(s[0]) then
      var r := TrimStart(s[1..]);
      assert s[..|s| - |r|] == [s[0]] + s[1..][..|s| - 1 - |r|];
      r
    else s
  }

  /** `trimEnd()`: drop trailing whitespace. */
  function TrimEnd(s: string): (r: string)
    ensures |r| <= |s| && r == s[..|r|]
    ensures AllWhitespace(s[|r|..])
    ensures r == [] || !IsWhitespace(r[|r| - 1])
  {
    if s != [] && IsWhitespace(s[|s| - 1]) then
      var r := TrimEnd(s[..|s| - 1]);
      assert s[|r|..] == s[..|s| - 1][|r|..] + [s[|s| - 1]];
      r
    else s
  }

  /** `trim()`. */
  function Trim(s: string): (r: string)
  {
    TrimEnd(TrimStart(s))
  }

  /** Trimming leaves nothing exactly when the string is whitespace only. */
  lemma TrimEmptyIff(s: string)
    ensures Trim(s) == "" <==> AllWhitespace(s)
  {
    var t := TrimStart(s);
    if t != [] {
      assert t[0] == s[|s| - |t|];
    }
  }

  // ---------------------------------------------------------------------------
  // Decimal numbers

  predicate IsDigit(c: char) { '0' <= c <= '9' }

  function DigitValue(c: char): nat
    requires IsDigit(c)
  {
    c as int - '0' as int
  }

  function DigitChar(d: nat): (c: char)
    requires d < 10
    ensures IsDigit(c) && DigitValue(c) == d
  {
    ('0' as int + d) as char
  }

  predicate AllDigits(s: string)
  {
    forall i :: 0 <= i < |s| ==> IsDigit(s[i])
  }

  /** The number a run of decimal digits denotes. */
  function DigitsValue(s: string): nat
    requires AllDigits(s)
  {
    if s == [] then 0 else DigitsValue(s[..|s| - 1]) * 10 + DigitValue(s[|s| - 1])
  }

  /** The decimal numeral of a natural number, without leading zeros. */
  function NatToString(n: nat): (r: string)
    ensures r != [] && AllDigits(r)
    ensures |r| > 1 ==> r[0] != '0'
    decreases n
  {
    if n < 10 then [DigitChar(n)] else NatToString(n / 10) + [DigitChar(n % 10)]
  }

  /** `String(n)` for an integer. */
  function NumToString(n: int): (r: string)
    ensures r != []
  {
    if n < 0 then "-" + NatToString(-n) else NatToString(n)
  }

  /** The longest run of digits at the start of `s`. */
  function DigitPrefix(s: string): (r: string)
    ensures |r| <= |s| && r == s[..|r|] && AllDigits(r)
    ensures |r| == |s| || !IsDigit(s[|r|])
  {
    if s != [] && IsDigit(s[0]) then [s[0]] + DigitPrefix(s[1..]) else []
  }

  /** Splits an optional leading sign off a numeral. */
  function SplitSign(t: string): (bool, string)
  {
    if t != [] && t[0] == '-' then (true, t[1..])
    else if t != [] && t[0] == '+' then (false, t[1..])
    else (false, t)
  }

  /**
   * `parseInt(s, 10)`: skip leading whitespace, read an optional sign and the
   * longest run of digits after it; no digit at all gives NaN (None).
   */
  function ParseInt(s: string): (r: Option<int>)
  {
    var (negative, rest) := SplitSign(TrimStart(s));
    var digits := DigitPrefix(rest);
    if digits == [] then None
    else Some(if negative then -(DigitsValue(digits) as int) else DigitsValue(digits))
  }

  /** An optional sign followed by one or more decimal digits and nothing else. */
  function SignedDigits(t: string): (r: Option<int>)
  {
    var (negative, rest) := SplitSign(t);
    if rest != [] && AllDigits(rest) then
      Some(if negative then -(DigitsValue(rest) as int) else DigitsValue(rest))
    else None
  }

  /** `10` to the power `k`. */
  function Pow10(k: nat): (r: nat)
    ensures r >= 1
  {
    if k == 0 then 1 else 10 * Pow10(k - 1)
  }

  /** `m * 10^shift` when that is an integer, otherwise None. */
  function ScaledInteger(m: nat, shift: int): (r: Option<nat>)
  {
    if shift >= 0 then Some(m * Pow10(shift))
    else if m % Pow10(-shift) == 0 then Some(m / Pow10(-shift))
    else None
  }

  lemma AllDigitsAppend(a: string, b: string)
    requires AllDigits(a) && AllDigits(b)
    ensures AllDigits(a + b)
  {
  }

  /** After the integer digits: the fraction digits behind a dot, if there is a dot, and what follows them. */
  function FractionAndTail(afterWhole: string): (r: (string, string))
    ensures AllDigits(r.0)
  {
    if afterWhole != [] && afterWhole[0] == '.' then
      var frac := DigitPrefix(afterWhole[1..]);
      (frac, afterWhole[1 + |frac|..])
    else ([], afterWhole)
  }

  /** The exponent a literal ends with: none (0), or `e`/`E` with an optionally signed digit run. */
  function ExponentOf(tail: string): Option<int>
  {
    if tail == [] then Some(0)
    else if tail[0] == 'e' || tail[0] == 'E' then SignedDigits(tail[1..])
    else None
  }

  /**
   * An unsigned decimal literal (`ddd`, `ddd.`, `ddd.ddd` or `.ddd`, then an
   * optional `e`/`E` exponent with an optional sign) with an integer value.
   * None for text that is no such literal and for a literal whose value has a
   * fractional part.
   */
  function DecimalLiteral(u: string): (r: Option<nat>)
  {
    var whole := DigitPrefix(u);
    var parts := FractionAndTail(u[|whole|..]);
    LiteralValue(whole, parts.0, ExponentOf(parts.1))
  }

  /** The integer a literal's digits and exponent denote: None without digits, without a valid exponent, or with a fractional value. */
  function LiteralValue(whole: string, frac: string, exponent: Option<int>): (r: Option<nat>)
    requires AllDigits(whole) && AllDigits(frac)
  {
    if (whole == [] && frac == []) || exponent.None? then None
    else
      AllDigitsAppend(whole, frac);
      ScaledInteger(DigitsValue(whole + frac), exponent.value - |frac|)
  }

  /** The value of `c` as a digit in base `radix`, if it is one (`a`-`f` in either case count 10 to 15). */
  function RadixDigit(c: char, radix: nat): (r: Option<nat>)
    ensures r.Some? ==> r.value < radix
  {
    var d: int :=
      if '0' <= c <= '9' then c as int - '0' as int
      else if 'a' <= c <= 'f' then c as int - 'a' as int + 10
      else if 'A' <= c <= 'F' then c as int - 'A' as int + 10
      else -1;
    if 0 <= d < radix then Some(d) else None
  }

  /** The value of a run of base-`radix` digits; None when it is empty or holds another character. */
  function RadixValue(s: string, radix: nat): (r: Option<nat>)
    ensures r.Some? ==> s != []
    decreases |s|
  {
    if s == [] then None
    else
      var last := RadixDigit(s[|s| - 1], radix);
      if last.None? then None
      else if |s| == 1 then last
      else match RadixValue(s[..|s| - 1], radix)
        case None => None
        case Some(v) => Some(v * radix + last.value)
  }

  /** The radix the letter after a leading `0` announces: `x`, `o` and `b`, in either case, for 16, 8 and 2; 0 for any other. */
  function MarkerRadix(marker: char): (radix: nat)
    ensures radix in {0, 2, 8, 16}
  {
    if marker == 'x' || marker == 'X' then 16
    else if marker == 'o' || marker == 'O' then 8
    else if marker == 'b' || marker == 'B' then 2
    else 0
  }

  /** The radix a `0x`, `0o` or `0b` prefix announces, or 0 for none. */
  function RadixPrefix(t: string): (radix: nat)
    ensures radix in {0, 2, 8, 16}
    ensures radix != 0 ==> |t| >= 2 && t[0] == '0'
  {
    if |t| < 2 || t[0] != '0' then 0 else MarkerRadix(t[1])
  }

  /**
   * `Number(s)` on text: the trimmed string is empty (0), a `0x`/`0o`/`0b`
   * integer with no sign, or an optionally signed decimal literal. None is
   * NaN, and also a finite value with a fractional part or `Infinity`,
   * which this integer-only model has no value for.
   */
  function StringToNumber(s: string): (r: Option<int>)
  {
    var t := Trim(s);
    if t == [] then Some(0)
    else if RadixPrefix(t) != 0 then
      match RadixValue(t[2..], RadixPrefix(t))
      case Some(v) => Some(v)
      case None => None
    else
      var (negative, rest) := SplitSign(t);
      match DecimalLiteral(rest)
      case Some(v) => Some(if negative then -(v as int) else v)
      case None => None
  }

  lemma {:induction false} DigitsValueOfNatToString(n: nat)
    ensures DigitsValue(NatToString(n)) == n
    decreases n
  {
    if n >= 10 {
      DigitsValueOfNatToString(n / 10);
      var s := NatToString(n);
      assert s[..|s| - 1] == NatToString(n / 10);
    }
  }

  lemma DigitPrefixOfDigits(s: string)
    requires AllDigits(s)
    ensures DigitPrefix(s) == s
  {
    if s != [] { DigitPrefixOfDigits(s[1..]); }
  }

  /** A numeral never starts with whitespace, so `trimStart` leaves it alone. */
  lemma TrimStartOfNumeral(n: int)
    ensures TrimStart(NumToString(n)) == NumToString(n)
  {
    var s := NumToString(n);
    assert !IsWhitespace(s[0]);
  }

  /** `parseInt(String(n), 10)` gives back `n`: the rows-per-page menu round-trips. */
  lemma ParseIntOfNumToString(n: int)
    ensures ParseInt(NumToString(n)) == Some(n)
  {
    var m: nat := if n < 0 then -n else n;
    var digits := NatToString(m);
    DigitsValueOfNatToString(m);
    DigitPrefixOfDigits(digits);
    TrimStartOfNumeral(n);
    if n < 0 {
      assert NumToString(n) == "-" + digits;
      assert SplitSign("-" + digits) == (true, digits);
    } else {
      assert NumToString(n) == digits;
      assert IsDigit(digits[0]);
      assert SplitSign(digits) == (false, digits);
    }
  }

  /** A bare digit run is a decimal literal denoting its digits' value. */
  lemma DecimalLiteralOfDigits(d: string)
    requires d != [] && AllDigits(d)
    ensures DecimalLiteral(d) == Some(DigitsValue(d))
  {
    DigitPrefixOfDigits(d);
    assert d[|d|..] == [];
    assert d + [] == d;
  }

  /** A trimmed, unprefixed text with a decimal literal after its sign reads as that literal, signed. */
  lemma StringToNumberDecimal(t: string, v: nat)
    requires Trim(t) == t && t != [] && RadixPrefix(t) == 0
    requires DecimalLiteral(SplitSign(t).1) == Some(v)
    ensures StringToNumber(t) == Some(if SplitSign(t).0 then -(v as int) else v)
  {
  }

  /** Text with no white space at either end is its own `trim()`. */
  lemma TrimOfUnpadded(s: string)
    requires s != [] && !IsWhitespace(s[0]) && !IsWhitespace(s[|s| - 1])
    ensures Trim(s) == s
  {
    assert TrimStart(s) == s;
  }

  /** A numeral has no white space at either end. */
  lemma TrimOfNumeral(n: int)
    ensures Trim(NumToString(n)) == NumToString(n)
  {
    var s := NumToString(n);
    assert !IsWhitespace(s[0]);
    TrimOfUnpadded(s);
  }


  /** `String(n)` is an optional `-` and the digits of `|n|`, with no radix prefix. */
  lemma NumeralShape(n: int)
    ensures var m: nat := if n < 0 then -n else n;
      SplitSign(NumToString(n)) == (n < 0, NatToString(m))
    ensures RadixPrefix(NumToString(n)) == 0
  {
    var m: nat := if n < 0 then -n else n;
    var s := NumToString(n);
    var digits := NatToString(m);
    if n < 0 {
      assert s == "-" + digits;
      assert s[0] == '-';
    } else {
      assert s == digits;
      assert IsDigit(s[0]);
      assert |s| >= 2 ==> IsDigit(s[1]);
    }
  }

  /** `Number(String(n))` gives back `n` as well. */
  lemma StringToNumberOfNumToString(n: int)
    ensures StringToNumber(NumToString(n)) == Some(n)
  {
    var m: nat := if n < 0 then -n else n;
    DigitsValueOfNatToString(m);
    DecimalLiteralOfDigits(NatToString(m));
    TrimOfNumeral(n);
    NumeralShape(n);
    StringToNumberDecimal(NumToString(n), m);
  }



  /** The digit prefix stops at the first character that is not a digit. */
  lemma {:induction false} DigitPrefixStops(d: string, rest: string)
    requires AllDigits(d) && (rest == [] || !IsDigit(rest[0]))
    ensures DigitPrefix(d + rest) == d
  {
    if d != [] {
      assert (d + rest)[1..] == d[1..] + rest;
      DigitPrefixStops(d[1..], rest);
    }
  }

  /** The value of a decimal literal from its three parts: the integer digits, the fraction digits and the tail. */
  lemma DecimalLiteralParts(u: string, whole: string, frac: string, tail: string)
    requires |whole| <= |u| && DigitPrefix(u) == whole && FractionAndTail(u[|whole|..]) == (frac, tail)
    ensures AllDigits(whole) && AllDigits(frac)
    ensures DecimalLiteral(u) == LiteralValue(whole, frac, ExponentOf(tail))
  {
  }

  /** A fraction of digits scales the digits it adds by a power of ten: `w.f` is `wf * 10^-|f|`. */
  lemma DecimalLiteralWithFraction(whole: string, frac: string)
    requires AllDigits(whole) && AllDigits(frac) && whole != []
    ensures AllDigits(whole + frac)
    ensures DecimalLiteral(whole + "." + frac) == ScaledInteger(DigitsValue(whole + frac), -|frac|)
  {
    var rest := "." + frac;
    var u := whole + "." + frac;
    assert u == whole + rest;
    DigitPrefixStops(whole, rest);
    assert u[|whole|..] == rest;
    assert rest[1..] == frac;
    DigitPrefixOfDigits(frac);
    assert rest[1 + |frac|..] == [];
    assert FractionAndTail(rest) == (frac, []);
    DecimalLiteralParts(u, whole, frac, []);
  }

  /** An exponent scales the digits by a power of ten: `we<e>` is `w * 10^e`. */
  lemma DecimalLiteralWithExponent(whole: string, marker: char, exponent: string)
    requires AllDigits(whole) && whole != [] && (marker == 'e' || marker == 'E')
    requires SignedDigits(exponent).Some?
    ensures DecimalLiteral(whole + [marker] + exponent) == ScaledInteger(DigitsValue(whole), SignedDigits(exponent).value)
  {
    var u := whole + [marker] + exponent;
    var rest := [marker] + exponent;
    assert u == whole + rest;
    DigitPrefixStops(whole, rest);
    assert u[|whole|..] == rest;
    assert FractionAndTail(rest) == ([], rest);
    assert rest[1..] == exponent;
    assert ExponentOf(rest) == SignedDigits(exponent);
    assert whole + [] == whole;
    DecimalLiteralParts(u, whole, [], rest);
  }

  /** Appending a zero digit multiplies a digit run's value by ten. */
  lemma DigitsValueAppendZero(d: string)
    requires AllDigits(d)
    ensures AllDigits(d + "0") && DigitsValue(d + "0") == DigitsValue(d) * 10
  {
    assert (d + "0")[..|d|] == d;
  }

  /** Scaling by `10^-1` undoes a factor of ten. */
  lemma ScaleDownTen(v: nat)
    ensures ScaledInteger(v * 10, -1) == Some(v)
  {
    assert Pow10(1) == 10;
    assert (v * 10) % 10 == 0 && (v * 10) / 10 == v;
  }

  /** A zero fraction leaves a digit run's value unchanged, as in JavaScript's `Number("1.0")`. */
  lemma ZeroFractionKeepsValue(d: string)
    requires AllDigits(d) && d != []
    ensures DecimalLiteral(d + ".0") == Some(DigitsValue(d))
  {
    DecimalLiteralWithFraction(d, "0");
    assert d + "." + "0" == d + ".0";
    DigitsValueAppendZero(d);
    ScaleDownTen(DigitsValue(d));
  }

  /** A bare trailing dot leaves a digit run's value unchanged, as in `Number("1.")`. */
  lemma TrailingDotKeepsValue(d: string)
    requires AllDigits(d) && d != []
    ensures DecimalLiteral(d + ".") == Some(DigitsValue(d))
  {
    DecimalLiteralWithFraction(d, "");
    assert d + "." + "" == d + ".";
    assert d + "" == d;
    assert Pow10(0) == 1;
  }

  /** A zero exponent leaves a digit run's value unchanged, as in `Number("1e0")`. */
  lemma ZeroExponentKeepsValue(d: string)
    requires AllDigits(d) && d != []
    ensures DecimalLiteral(d + "e0") == Some(DigitsValue(d))
  {
    assert SplitSign("0") == (false, "0");
    assert DigitsValue("0") == 0;
    assert SignedDigits("0") == Some(0);
    DecimalLiteralWithExponent(d, 'e', "0");
    assert d + ['e'] + "0" == d + "e0";
    assert Pow10(0) == 1;
  }

  /** `String(n)` followed by a fraction or an exponent: no radix prefix, and the sign splits off as before. */
  lemma SuffixedNumeralShape(n: int, suffix: string)
    requires suffix != [] && (suffix[0] == '.' || suffix[0] == 'e' || suffix[0] == 'E')
    ensures var m: nat := if n < 0 then -n else n;
      && RadixPrefix(NumToString(n) + suffix) == 0
      && SplitSign(NumToString(n) + suffix) == (n < 0, NatToString(m) + suffix)
  {
    var m: nat := if n < 0 then -n else n;
    var digits := NatToString(m);
    var t := NumToString(n) + suffix;
    if n < 0 {
      assert NumToString(n) == "-" + digits;
      assert t == "-" + (digits + suffix);
      assert t[0] == '-';
      assert t[1..] == digits + suffix;
    } else {
      assert NumToString(n) == digits;
      assert t[0] == digits[0];
      assert |digits| >= 2 ==> t[1] == digits[1];
      assert |digits| == 1 ==> t[1] == suffix[0];
    }
  }

  /**
   * `String(n)` followed by a suffix that keeps the digits' value as a
   * decimal literal reads back as `n`.
   */
  lemma NumberOfSuffixedNumeral(n: int, suffix: string)
    requires suffix != [] && (suffix[0] == '.' || suffix[0] == 'e' || suffix[0] == 'E')
    requires !IsWhitespace(suffix[|suffix| - 1])
    requires var m: nat := if n < 0 then -n else n;
      DecimalLiteral(NatToString(m) + suffix) == Some(m)
    ensures StringToNumber(NumToString(n) + suffix) == Some(n)
  {
    var m: nat := if n < 0 then -n else n;
    var t := NumToString(n) + suffix;
    assert t[0] == NumToString(n)[0];
    assert t[|t| - 1] == suffix[|suffix| - 1];
    TrimOfUnpadded(t);
    SuffixedNumeralShape(n, suffix);
    StringToNumberDecimal(t, m);
  }

  /**
   * `Number` reads an integer written with a zero fraction, a bare trailing
   * dot or a zero exponent as that integer, so `getDocumentById("1.0")`
   * looks for document 1 as JavaScript does.
   */
  lemma IntegerValuedNumerals(n: int)
    ensures StringToNumber(NumToString(n) + ".0") == Some(n)
    ensures StringToNumber(NumToString(n) + ".") == Some(n)
    ensures StringToNumber(NumToString(n) + "e0") == Some(n)
  {
    var m: nat := if n < 0 then -n else n;
    DigitsValueOfNatToString(m);
    ZeroFractionKeepsValue(NatToString(m));
    NumberOfSuffixedNumeral(n, ".0");
    TrailingDotKeepsValue(NatToString(m));
    NumberOfSuffixedNumeral(n, ".");
    ZeroExponentKeepsValue(NatToString(m));
    NumberOfSuffixedNumeral(n, "e0");
  }

  /** A run that has a value in some radix ends in a digit of it, so never in white space. */
  lemma RadixRunEndsInDigit(d: string, radix: nat)
    requires RadixValue(d, radix).Some?
    ensures d != [] && !IsWhitespace(d[|d| - 1])
  {
  }

  /** A trimmed text with a radix prefix reads as its digits in that radix. */
  lemma StringToNumberRadix(t: string, radix: nat)
    requires Trim(t) == t && t != [] && RadixPrefix(t) == radix && radix != 0
    requires RadixValue(t[2..], radix).Some?
    ensures StringToNumber(t) == Some(RadixValue(t[2..], radix).value)
  {
  }

  /**
   * `0x`, `0o` and `0b` (in either case) announce base 16, 8 and 2, and the
   * digits after the prefix are read in that base.
   */
  lemma RadixNumeral(marker: char, d: string)
    requires MarkerRadix(marker) != 0 && RadixValue(d, MarkerRadix(marker)).Some?
    ensures StringToNumber(['0', marker] + d) == Some(RadixValue(d, MarkerRadix(marker)).value)
  {
    var radix := MarkerRadix(marker);
    var t := ['0', marker] + d;
    RadixRunEndsInDigit(d, radix);
    assert t[|t| - 1] == d[|d| - 1];
    TrimOfUnpadded(t);
    assert t[0] == '0' && t[1] == marker;
    assert t[2..] == d;
    StringToNumberRadix(t, radix);
  }

  /** After a sign only a decimal literal may follow, and a radix numeral is none: `Number("-0x1")` is NaN. */
  lemma SignedRadixIsNaN(marker: char, d: string)
    requires MarkerRadix(marker) != 0
    ensures DecimalLiteral(['0', marker] + d) == None
  {
    var u := ['0', marker] + d;
    var rest := [marker] + d;
    assert u == "0" + rest;
    DigitPrefixStops("0", rest);
    assert u[1..] == rest;
    assert FractionAndTail(rest) == ([], rest);
    assert ExponentOf(rest) == None;
  }

  /** Hexadecimal digits count 10 to 15 for `a` to `f` in either case. */
  lemma HexDigits()
    ensures RadixValue("1f", 16) == Some(31) && RadixValue("1F", 16) == Some(31)
    ensures RadixValue("1", 2) == Some(1) && RadixValue("2", 2) == None && RadixValue("8", 8) == None
  {
    assert "1f"[..1] == "1";
    assert "1F"[..1] == "1";
  }
}
