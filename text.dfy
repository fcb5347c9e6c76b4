/**
 * The string operations the application relies on, restricted to what the
 * model needs: ASCII upper-casing (`toUpperCase`), the whitespace class `\s`
 * of JavaScript regular expressions, `split` on a one-character separator,
 * and the decimal rendering of an integer inside a template string.
 */
module Text {

  // ---------------------------------------------------------------------------
  // Upper-casing
  // ---------------------------------------------------------------------------

  predicate IsLower(c: char) {
    'a' <= c <= 'z'
  }

  /** `toUpperCase` on one character; only ASCII letters are mapped. */
  function UpperChar(c: char): char {
    if IsLower(c) then (c as int - 32) as char else c
  }

  /** `toUpperCase` on a string, character by character. */
  function Upper(s: string): string {
    seq(|s|, i requires 0 <= i < |s| => UpperChar(s[i]))
  }

  /** Case-insensitive equality as the client writes it: `a.toUpperCase() === b.toUpperCase()`. */
  predicate SameIgnoringCase(a: string, b: string) {
    Upper(a) == Upper(b)
  }

  lemma UpperPreservesLength(s: string)
    ensures |Upper(s)| == |s|
  {
  }

  /** Upper-casing leaves no lower-case letter behind and changes nothing else. */
  lemma UpperAt(s: string, i: int)
    requires 0 <= i < |s|
    ensures !IsLower(Upper(s)[i])
    ensures !IsLower(s[i]) ==> Upper(s)[i] == s[i]
    ensures IsLower(s[i]) ==> Upper(s)[i] as int == s[i] as int - 32
  {
  }

  /** Upper-casing twice is upper-casing once. */
  lemma UpperIdempotent(s: string)
    ensures Upper(Upper(s)) == Upper(s)
  {
    var u := Upper(s);
    assert |Upper(u)| == |u|;
    forall i | 0 <= i < |u|
      ensures Upper(u)[i] == u[i]
    {
      UpperAt(s, i);
    }
  }

  /** A string is the same as its upper-cased self ignoring case. */
  lemma SameIgnoringCaseAsUpper(s: string)
    ensures SameIgnoringCase(Upper(s), s)
  {
    UpperIdempotent(s);
  }

  // ---------------------------------------------------------------------------
  // Length as JavaScript counts it
  // ---------------------------------------------------------------------------

  /** UTF-16 code units of one character: two for a character outside the Basic Multilingual Plane. */
  function Utf16Units(c: char): nat {
    if c as int >= 0x1_0000 then 2 else 1
  }

  /**
   * `s.length` in JavaScript, and the length zod's `min`/`max` compare: the
   * number of UTF-16 code units, not of characters.
   */
  function JsLength(s: string): (n: nat)
    ensures |s| <= n <= 2 * |s|
    ensures n == 0 <==> s == []
  {
    if s == [] then 0 else Utf16Units(s[0]) + JsLength(s[1..])
  }

  /** The two counts agree exactly on strings inside the Basic Multilingual Plane. */
  lemma {:induction false} JsLengthIsLengthInBmp(s: string)
    ensures JsLength(s) == |s| <==> forall i :: 0 <= i < |s| ==> s[i] as int < 0x1_0000
  {
    if s != [] {
      JsLengthIsLengthInBmp(s[1..]);
      assert forall i :: 1 <= i < |s| ==> s[i] == s[1..][i - 1];
    }
  }

  /** Upper-casing maps only ASCII letters, so the JavaScript length is kept. */
  lemma {:induction false} UpperPreservesJsLength(s: string)
    ensures JsLength(Upper(s)) == JsLength(s)
  {
    if s != [] {
      UpperPreservesJsLength(s[1..]);
      assert Upper(s)[1..] == Upper(s[1..]);
    }
  }

  // ---------------------------------------------------------------------------
  // The whitespace class `\s`
  // ---------------------------------------------------------------------------

  /** The characters matched by `\s` in a JavaScript regular expression. */
  predicate IsJsSpace(c: char) {
    c == '\t' || c == '\n' || c == '\U{0B}' || c == '\U{0C}' || c == '\r' || c == ' '
    || c == '\U{A0}' || c == '\U{1680}' || ('\U{2000}' <= c <= '\U{200A}')
    || c == '\U{2028}' || c == '\U{2029}' || c == '\U{202F}' || c == '\U{205F}'
    || c == '\U{3000}' || c == '\U{FEFF}'
  }

  // ---------------------------------------------------------------------------
  // `split` on a single-character separator, and its inverse `join`
  // ---------------------------------------------------------------------------

  /**
   * `s.split(sep)` for a one-character separator: the maximal runs between
   * separators, including empty ones; there is always at least one field.
   */
  function Split(s: string, sep: char): (fields: seq<string>)
    ensures |fields| >= 1
    decreases |s|
  {
    if |s| == 0 then [""]
    else
      var rest := Split(s[1..], sep);
      if s[0] == sep then [""] + rest
      else [[s[0]] + rest[0]] + rest[1..]
  }

  /** `fields.join(sep)`. */
  function Join(fields: seq<string>, sep: char): string
    requires |fields| >= 1
    decreases |fields|
  {
    if |fields| == 1 then fields[0]
    else fields[0] + [sep] + Join(fields[1..], sep)
  }

  predicate Free(s: string, sep: char) {
    forall i :: 0 <= i < |s| ==> s[i] != sep
  }

  /** Joining the fields of a split gives back the original string. */
  lemma {:induction false} JoinSplit(s: string, sep: char)
    ensures Join(Split(s, sep), sep) == s
    decreases |s|
  {
    if |s| > 0 {
      var rest := Split(s[1..], sep);
      JoinSplit(s[1..], sep);
      if s[0] == sep {
        assert Split(s, sep)[1..] == rest;
      } else {
        JoinPrepend(s[0], rest, sep);
        assert s == [s[0]] + s[1..];
      }
    }
  }

  /** Prefixing the first field with a character prefixes the join with it. */
  lemma JoinPrepend(c: char, fields: seq<string>, sep: char)
    requires |fields| >= 1
    ensures Join([[c] + fields[0]] + fields[1..], sep) == [c] + Join(fields, sep)
  {
    var fs := [[c] + fields[0]] + fields[1..];
    if |fields| > 1 {
      assert fs[1..] == fields[1..];
      assert ([c] + fields[0]) + [sep] + Join(fields[1..], sep) == [c] + (fields[0] + [sep] + Join(fields[1..], sep));
    }
  }

  /** No field of a split contains the separator. */
  lemma {:induction false} SplitFieldsFree(s: string, sep: char)
    ensures forall k :: 0 <= k < |Split(s, sep)| ==> Free(Split(s, sep)[k], sep)
    decreases |s|
  {
    if |s| > 0 {
      SplitFieldsFree(s[1..], sep);
    }
  }

  /** The first field of a split is a prefix of the string. */
  lemma {:induction false} SplitFirstIsPrefix(s: string, sep: char)
    ensures |Split(s, sep)[0]| <= |s| && Split(s, sep)[0] == s[..|Split(s, sep)[0]|]
    decreases |s|
  {
    if |s| > 0 {
      SplitFirstIsPrefix(s[1..], sep);
    }
  }

  /** The first field of a split ends at the first separator, if there is one. */
  lemma {:induction false} SplitFirstStops(s: string, sep: char)
    ensures |Split(s, sep)[0]| < |s| ==> s[|Split(s, sep)[0]|] == sep
    decreases |s|
  {
    if |s| > 0 {
      SplitFirstStops(s[1..], sep);
    }
  }

  /** A string without the separator is a single field. */
  lemma {:induction false} SplitOfFree(s: string, sep: char)
    requires Free(s, sep)
    ensures Split(s, sep) == [s]
    decreases |s|
  {
    if |s| > 0 {
      assert Free(s[1..], sep);
      SplitOfFree(s[1..], sep);
      assert s == [s[0]] + s[1..];
    }
  }

  /** A separator between two strings separates their fields. */
  lemma {:induction false} SplitAround(a: string, sep: char, b: string)
    ensures Split(a + [sep] + b, sep) == Split(a, sep) + Split(b, sep)
    decreases |a|
  {
    var s := a + [sep] + b;
    if |a| == 0 {
      assert s[1..] == b;
    } else {
      assert s[1..] == a[1..] + [sep] + b;
      SplitAround(a[1..], sep, b);
    }
  }

  /** Splitting the join of separator-free fields gives back the fields. */
  lemma {:induction false} SplitJoin(fields: seq<string>, sep: char)
    requires |fields| >= 1
    requires forall k :: 0 <= k < |fields| ==> Free(fields[k], sep)
    ensures Split(Join(fields, sep), sep) == fields
    decreases |fields|
  {
    SplitOfFree(fields[0], sep);
    if |fields| > 1 {
      SplitJoin(fields[1..], sep);
      SplitAround(fields[0], sep, Join(fields[1..], sep));
      assert [fields[0]] + fields[1..] == fields;
    }
  }

  // ---------------------------------------------------------------------------
  // Decimal rendering of integers (`${n}` in a template string)
  // ---------------------------------------------------------------------------

  function DigitChar(d: nat): char
    requires d < 10
  {
    ('0' as int + d) as char
  }

  predicate IsDigit(c: char) {
    '0' <= c <= '9'
  }

  predicate AllDigits(s: string) {
    forall i :: 0 <= i < |s| ==> IsDigit(s[i])
  }

  /** The value of a string of decimal digits, most significant first. */
  function DigitsValue(s: string): nat
    requires AllDigits(s)
    decreases |s|
  {
    if |s| == 0 then 0 else 10 * DigitsValue(s[..|s| - 1]) + (s[|s| - 1] as int - '0' as int)
  }

  /** The decimal digits of a natural number, most significant first, without leading zeros. */
  function NatToDecimal(n: nat): string
    decreases n
  {
    if n < 10 then [DigitChar(n)] else NatToDecimal(n / 10) + [DigitChar(n % 10)]
  }

  /** The decimal rendering of an integer, with a leading `-` when negative. */
  function IntToDecimal(i: int): string {
    if i < 0 then "-" + NatToDecimal(-i) else NatToDecimal(i)
  }

  /** The rendering of a natural number is a non-empty run of digits; it has one digit exactly below ten. */
  lemma {:induction false} NatToDecimalShape(n: nat)
    ensures |NatToDecimal(n)| >= 1
    ensures |NatToDecimal(n)| == 1 <==> n < 10
    ensures forall k :: 0 <= k < |NatToDecimal(n)| ==> IsDigit(NatToDecimal(n)[k])
    decreases n
  {
    if n >= 10 {
      NatToDecimalShape(n / 10);
    }
  }

  /** Reading the digits of a rendering gives back the number. */
  lemma {:induction false} DecimalRoundTrip(n: nat)
    ensures NatToDecimal(n) != [] && AllDigits(NatToDecimal(n)) && DigitsValue(NatToDecimal(n)) == n
    decreases n
  {
    NatToDecimalShape(n);
    if n >= 10 {
      DecimalRoundTrip(n / 10);
      var s := NatToDecimal(n);
      assert s[..|s| - 1] == NatToDecimal(n / 10);
      assert s[|s| - 1] == DigitChar(n % 10);
    }
  }

  /** Different natural numbers have different renderings. */
  lemma {:induction false} NatToDecimalInjective(a: nat, b: nat)
    requires NatToDecimal(a) == NatToDecimal(b)
    ensures a == b
    decreases a
  {
    NatToDecimalShape(a);
    NatToDecimalShape(b);
    var s := NatToDecimal(a);
    if a >= 10 {
      assert b >= 10;
      assert s[|s| - 1] == DigitChar(a % 10) == DigitChar(b % 10);
      assert s[..|s| - 1] == NatToDecimal(a / 10) == NatToDecimal(b / 10);
      NatToDecimalInjective(a / 10, b / 10);
    }
  }

  /** Different integers have different renderings: the sign and the digits tell them apart. */
  lemma IntToDecimalInjective(a: int, b: int)
    requires IntToDecimal(a) == IntToDecimal(b)
    ensures a == b
  {
    var s := IntToDecimal(a);
    NatToDecimalShape(if a < 0 then -a else a);
    NatToDecimalShape(if b < 0 then -b else b);
    assert IntToDecimal(a)[0] == '-' <==> a < 0;
    assert IntToDecimal(b)[0] == '-' <==> b < 0;
    if a < 0 {
      assert NatToDecimal(-a) == s[1..] == NatToDecimal(-b);
      NatToDecimalInjective(-a, -b);
    } else {
      NatToDecimalInjective(a, b);
    }
  }
}
