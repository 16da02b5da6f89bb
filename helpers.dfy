/**
 * The string and object helpers the forms and lists call: truncation with an
 * ellipsis, file extensions and the file-type table, the e-mail pattern, and
 * the two emptiness tests. A missing (`null`/`undefined`) string argument is
 * `None`.
 */
module Helpers {
  import opened Wrappers
  import opened JsBuiltins
  import opened JsValues

  /** A string argument is falsy when missing or empty. */
  predicate Falsy(str: Option<string>)
  {
    str.None? || str.value == ""
  }

  // ---------------------------------------------------------------------------
  // truncateString

  /** The default `maxLength`. */
  const DefaultMaxLength := 50

  /** `truncateString(str, maxLength)`: missing or empty gives "", a short string is kept, a long one is cut and marked. */
  function TruncateString(str: Option<string>, maxLength: int): (r: string)
    ensures Falsy(str) ==> r == ""
    ensures !Falsy(str) && |str.value| <= maxLength ==> r == str.value
    ensures !Falsy(str) && 0 <= maxLength < |str.value| ==> r == str.value[..maxLength] + "..." && |r| == maxLength + 3
  {
    if Falsy(str) then ""
    else if |str.value| <= maxLength then str.value
    else Slice(str.value, 0, maxLength) + "..."
  }

  /**
   * Truncating twice is truncating once: a cut string is `maxLength + 3` long,
   * so it is cut again at the same place and marked the same way.
   */
  lemma TruncateIdempotent(str: Option<string>, maxLength: int)
    requires maxLength >= 0
    ensures TruncateString(Some(TruncateString(str, maxLength)), maxLength) == TruncateString(str, maxLength)
  {
    var r := TruncateString(str, maxLength);
    if !Falsy(str) && maxLength < |str.value| {
      assert r[..maxLength] == str.value[..maxLength];
    }
  }

  /** With a non-negative limit the result is a prefix of the input, followed by "..." exactly when something was cut. */
  lemma TruncateKeepsPrefix(s: string, maxLength: int)
    requires maxLength >= 0
    ensures var r := TruncateString(Some(s), maxLength);
      |r| <= maxLength + 3
      && (|s| <= maxLength ==> r == s)
      && (|s| > maxLength ==> r[..maxLength] == s[..maxLength] && r[maxLength..] == "...")
  {
  }

  // ---------------------------------------------------------------------------
  // getFileExtension and getFileType

  /** `(filename.lastIndexOf('.') - 1 >>> 0) + 2`: where the extension starts. */
  function ExtensionStart(name: string): nat
  {
    ToUint32(LastIndexOfChar(name, '.') - 1) + 2
  }

  /**
   * The unsigned shift turns the index -1 (no dot) and 0 (a leading dot)
   * into starts at or past 2^32, beyond any name shorter than that; a later
   * dot starts the extension just after it.
   */
  lemma ExtensionStartCases(name: string)
    requires |name| <= 0x1_0000_0000
    ensures LastIndexOfChar(name, '.') <= 0 ==> ExtensionStart(name) >= |name|
    ensures LastIndexOfChar(name, '.') > 0 ==> ExtensionStart(name) == LastIndexOfChar(name, '.') + 1
  {
  }

  /** A slice from past the end keeps nothing. */
  lemma SliceFromPastEnd(name: string, start: int)
    requires start >= |name|
    ensures Slice(name, start, |name|) == []
  {
    assert ResolveIndex(start, |name|) == |name|;
  }

  /** A slice from just after the last dot keeps the text after it, which holds no dot. */
  lemma SliceAfterLastDot(name: string, dot: int)
    requires 0 < dot < |name| && '.' !in name[dot + 1..]
    ensures Slice(name, dot + 1, |name|) == name[dot + 1..]
    ensures '.' !in Slice(name, dot + 1, |name|)
  {
    assert ResolveIndex(dot + 1, |name|) == dot + 1;
  }

  /** `filename.slice(start).toLowerCase()`, with a missing or empty name giving "". */
  function GetFileExtension(filename: Option<string>): (r: string)
  {
    if Falsy(filename) then ""
    else Lower(Slice(filename.value, ExtensionStart(filename.value), |filename.value|))
  }

  /** No dot, or a dot only in front, leaves no extension. */
  lemma ExtensionWithoutDot(name: string)
    requires |name| <= 0x1_0000_0000 && LastIndexOfChar(name, '.') <= 0
    ensures GetFileExtension(Some(name)) == ""
  {
    ExtensionStartCases(name);
    SliceFromPastEnd(name, ExtensionStart(name));
  }

  /** A dot after the first character starts the extension just after the last dot. */
  lemma ExtensionAfterDot(name: string)
    requires |name| <= 0x1_0000_0000 && LastIndexOfChar(name, '.') > 0
    ensures var dot := LastIndexOfChar(name, '.');
      GetFileExtension(Some(name)) == Lower(name[dot + 1..]) && '.' !in GetFileExtension(Some(name))
  {
    var dot := LastIndexOfChar(name, '.');
    ExtensionStartCases(name);
    assert !Falsy(Some(name));
    assert GetFileExtension(Some(name)) == Lower(Slice(name, dot + 1, |name|));
    SliceAfterLastDot(name, dot);
    LowerKeepsNonLetters(name[dot + 1..], '.');
  }

  /**
   * For any name up to 2^32 characters: no dot, or a dot only in front,
   * gives ""; otherwise the result is the lower-cased text after the last
   * dot, which itself holds no dot.
   */
  lemma GetFileExtensionMeaning(name: string)
    requires |name| <= 0x1_0000_0000
    ensures var r := GetFileExtension(Some(name));
      var dot := LastIndexOfChar(name, '.');
      && (dot <= 0 ==> r == "")
      && (dot > 0 ==> r == Lower(name[dot + 1..]))
      && '.' !in r
  {
    if LastIndexOfChar(name, '.') <= 0 {
      ExtensionWithoutDot(name);
    } else {
      ExtensionAfterDot(name);
    }
  }

  /** A name whose only dot is in front, like ".bashrc", has no extension. */
  lemma LeadingDotHasNoExtension(rest: string)
    requires '.' !in rest && |rest| < 0x1_0000_0000
    ensures GetFileExtension(Some("." + rest)) == ""
  {
    var name := "." + rest;
    assert name[1..] == rest;
    assert LastIndexOfChar(name, '.') == 0 by {
      var dot := LastIndexOfChar(name, '.');
      assert dot >= 0 by { assert name[0] == '.'; }
      assert forall i :: 1 <= i < |name| ==> name[i] == rest[i - 1];
    }
    GetFileExtensionMeaning(name);
  }

  /** A trailing dot leaves no extension. */
  lemma TrailingDotHasNoExtension(stem: string)
    requires |stem| < 0x1_0000_0000
    ensures GetFileExtension(Some(stem + ".")) == ""
  {
    var name := stem + ".";
    assert name[|name| - 1] == '.';
    GetFileExtensionMeaning(name);
  }

  /** The `switch` of `getFileType`, on an already lower-cased extension. */
  function FileTypeOfLower(e: string): (r: string)
    ensures r in {"PDF", "DOCX", "XLS", "TXT", "JPG", "Unknown"}
  {
    if e == "pdf" then "PDF"
    else if e == "doc" || e == "docx" then "DOCX"
    else if e == "xls" || e == "xlsx" then "XLS"
    else if e == "txt" then "TXT"
    else if e == "jpg" || e == "jpeg" || e == "png" || e == "gif" then "JPG"
    else "Unknown"
  }

  /** `getFileType(extension)`: the table, looked up case-insensitively. */
  function GetFileType(extension: string): (r: string)
    ensures r in {"PDF", "DOCX", "XLS", "TXT", "JPG", "Unknown"}
  {
    FileTypeOfLower(Lower(extension))
  }

  /** The type depends only on the lower-cased extension. */
  lemma GetFileTypeIgnoresCase(extension: string)
    ensures GetFileType(extension) == GetFileType(Lower(extension))
  {
    LowerIdempotent(extension);
  }

  /** Exactly the ten extensions the table lists have a known type. */
  lemma FileTypeKnownIff(e: string)
    ensures FileTypeOfLower(e) != "Unknown" <==> e in ["pdf", "doc", "docx", "xls", "xlsx", "txt", "jpg", "jpeg", "png", "gif"]
  {
  }

  /** The document extensions the table knows. */
  lemma DocumentFileTypes()
    ensures FileTypeOfLower("pdf") == "PDF"
    ensures FileTypeOfLower("doc") == "DOCX" && FileTypeOfLower("docx") == "DOCX"
    ensures FileTypeOfLower("xls") == "XLS" && FileTypeOfLower("xlsx") == "XLS"
    ensures FileTypeOfLower("txt") == "TXT"
  {
  }

  /** The image extensions the table knows, all shown as JPG. */
  lemma ImageFileTypes()
    ensures FileTypeOfLower("jpg") == "JPG" && FileTypeOfLower("jpeg") == "JPG"
    ensures FileTypeOfLower("png") == "JPG" && FileTypeOfLower("gif") == "JPG"
  {
  }

  // ---------------------------------------------------------------------------
  // isValidEmail

  /** A character the class `[^\s@]` matches. */
  predicate EmailChar(c: char)
  {
    !IsWhitespace(c) && c != '@'
  }

  predicate AllEmailChars(s: string)
  {
    forall i :: 0 <= i < |s| ==> EmailChar(s[i])
  }

  /**
   * `/^[^\s@]+@[^\s@]+\.[^\s@]+$/` matched with the `@` at `at` and the
   * escaped dot at `dot`: three non-empty runs of `[^\s@]` around them.
   */
  predicate EmailSplit(s: string, at: int, dot: int)
  {
    && 0 < at && at + 1 < dot && dot + 1 < |s|
    && s[at] == '@' && s[dot] == '.'
    && AllEmailChars(s[..at]) && AllEmailChars(s[at + 1..dot]) && AllEmailChars(s[dot + 1..])
  }

  /** The language of the pattern: some placement of the `@` and the dot matches. */
  ghost predicate MatchesEmailPattern(s: string)
  {
    exists at, dot :: EmailSplit(s, at, dot)
  }

  /** A domain part: no whitespace or `@`, and a dot with something on each side. */
  predicate IsDomain(d: string)
  {
    AllEmailChars(d) && |d| >= 3 && '.' in d[1..|d| - 1]
  }

  /** `isValidEmail`, decided from the first `@`: a non-empty local part before it and a domain after it. */
  predicate IsValidEmail(s: string)
  {
    var at := IndexOfChar(s, '@');
    at > 0 && AllEmailChars(s[..at]) && IsDomain(s[at + 1..])
  }

  /** A string the decision accepts matches the pattern, split at its first `@` and a dot of the domain. */
  lemma ValidEmailMatchesPattern(s: string)
    requires IsValidEmail(s)
    ensures MatchesEmailPattern(s)
  {
    var at := IndexOfChar(s, '@');
    var d := s[at + 1..];
    var k :| 0 <= k < |d[1..|d| - 1]| && d[1..|d| - 1][k] == '.';
    var dot := at + 2 + k;
    assert s[at + 1..dot] == d[..k + 1];
    assert s[dot + 1..] == d[k + 2..];
    assert EmailSplit(s, at, dot);
  }

  /** The domain of a matching string, after its only `@`, is a run of `[^\s@]` with an inner dot. */
  lemma DomainOfSplit(s: string, at: int, dot: int)
    requires EmailSplit(s, at, dot)
    ensures IsDomain(s[at + 1..])
  {
    var d := s[at + 1..];
    var k := dot - at - 1;
    assert d[1..|d| - 1][k - 1] == '.';
    forall i | 0 <= i < |d| ensures EmailChar(d[i]) {
      if i < k {
        assert d[i] == s[at + 1..dot][i];
      } else if i > k {
        assert d[i] == s[dot + 1..][i - k - 1];
      } else {
        assert d[i] == '.';
      }
    }
  }

  /** A string that matches the pattern is accepted: its only `@` is the first one. */
  lemma PatternMatchIsValidEmail(s: string)
    requires MatchesEmailPattern(s)
    ensures IsValidEmail(s)
  {
    var at, dot :| EmailSplit(s, at, dot);
    assert '@' !in s[..at] by {
      forall i | 0 <= i < at ensures s[..at][i] != '@' {
        assert EmailChar(s[..at][i]);
      }
    }
    IndexOfCharIsFirst(s, '@', at);
    DomainOfSplit(s, at, dot);
  }

  /** The decision agrees with the pattern in both directions. */
  lemma IsValidEmailMeaning(s: string)
    ensures IsValidEmail(s) <==> MatchesEmailPattern(s)
  {
    if IsValidEmail(s) {
      ValidEmailMatchesPattern(s);
    }
    if MatchesEmailPattern(s) {
      PatternMatchIsValidEmail(s);
    }
  }

  // ---------------------------------------------------------------------------
  // isEmpty and isEmptyObject

  /** `!str || str.trim().length === 0`. */
  predicate IsEmpty(str: Option<string>)
  {
    Falsy(str) || |Trim(str.value)| == 0
  }

  /** A string is empty in this sense exactly when it is missing or all whitespace. */
  lemma IsEmptyMeaning(str: Option<string>)
    ensures IsEmpty(str) <==> str.None? || AllWhitespace(str.value)
  {
    if str.Some? {
      TrimEmptyIff(str.value);
    }
  }

  /** `Object.keys(obj).length === 0`. */
  predicate IsEmptyObject(obj: Record)
  {
    |obj.Keys| == 0
  }

  /** An object without keys is the empty object, and adding any field makes it non-empty. */
  lemma IsEmptyObjectMeaning(obj: Record, key: string, v: Value)
    ensures IsEmptyObject(obj) <==> obj == map[]
    ensures !IsEmptyObject(obj[key := v])
  {
    if IsEmptyObject(obj) {
      assert obj.Keys == {};
    }
    assert key in obj[key := v].Keys;
  }
}
