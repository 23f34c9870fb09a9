/** String primitives the application leans on: JavaScript's whitespace class
    (used by `String.prototype.trim` and by `\s` in regular expressions), trimming,
    ASCII case mapping, `includes`, UTF-16 length and decimal rendering. */
module Text {

  datatype Option<+T> = None | Some(value: T)

  /** The characters JavaScript counts as WhiteSpace or LineTerminator. */
  predicate IsWhitespace(c: char) {
    var n := c as int;
    n == 0x09 || n == 0x0A || n == 0x0B || n == 0x0C || n == 0x0D || n == 0x20 ||
    n == 0xA0 || n == 0x1680 || (0x2000 <= n <= 0x200A) || n == 0x2028 || n == 0x2029 ||
    n == 0x202F || n == 0x205F || n == 0x3000 || n == 0xFEFF
  }

  predicate IsDigit(c: char) { '0' <= c <= '9' }

  predicate IsUpperLetter(c: char) { 'A' <= c <= 'Z' }

  predicate NoWhitespace(s: string) {
    forall i | 0 <= i < |s| :: !IsWhitespace(s[i])
  }

  /** Drops leading whitespace: the result is a suffix of `s`, everything dropped is
      whitespace and the result does not start with whitespace. */
  function TrimStart(s: string): (r: string)
    ensures |r| <= |s| && r == s[|s| - |r|..]
    ensures forall k | 0 <= k < |s| - |r| :: IsWhitespace(s[k])
    ensures r == [] || !IsWhitespace(r[0])
  {
    if s != [] && IsWhitespace(s[0]) then TrimStart(s[1..]) else s
  }

  /** Drops trailing whitespace: the result is a prefix of `s`, everything dropped is
      whitespace and the result does not end with whitespace. */
  function TrimEnd(s: string): (r: string)
    ensures |r| <= |s| && r == s[..|r|]
    ensures forall k | |r| <= k < |s| :: IsWhitespace(s[k])
    ensures r == [] || !IsWhitespace(r[|r| - 1])
  {
    if s != [] && IsWhitespace(s[|s| - 1]) then TrimEnd(s[..|s| - 1]) else s
  }

  /** `String.prototype.trim`: the result is no longer than the input, has no whitespace
      at either end, and a string without whitespace is left as it is. */
  function Trim(s: string): (r: string)
    ensures |r| <= |s|
    ensures r == [] || (!IsWhitespace(r[0]) && !IsWhitespace(r[|r| - 1]))
    ensures NoWhitespace(s) ==> r == s
  {
    var t := TrimStart(s);
    var r := TrimEnd(t);
    assert r == [] || r[0] == t[0];
    r
  }

  /** Where the trimmed piece sits in its input. */
  lemma TrimSlice(s: string) returns (i: int, j: int)
    ensures 0 <= i <= j <= |s| && Trim(s) == s[i..j]
    ensures forall k | 0 <= k < i :: IsWhitespace(s[k])
    ensures forall k | j <= k < |s| :: IsWhitespace(s[k])
  {
    var t := TrimStart(s);
    var u := TrimEnd(t);
    i := |s| - |t|;
    j := i + |u|;
    assert s[i..j] == u;
    forall k | j <= k < |s| ensures IsWhitespace(s[k]) {
      assert t[k - i] == s[k];
    }
  }

  /** Trim keeps a contiguous piece of its input, with whitespace only around it and
      no whitespace at either of its ends. */
  lemma TrimIsInfix(s: string)
    ensures exists i, j :: 0 <= i <= j <= |s| && Trim(s) == s[i..j]
                           && (forall k | 0 <= k < i :: IsWhitespace(s[k]))
                           && (forall k | j <= k < |s| :: IsWhitespace(s[k]))
    ensures Trim(s) == [] || (!IsWhitespace(Trim(s)[0]) && !IsWhitespace(Trim(s)[|Trim(s)| - 1]))
  {
    var i, j := TrimSlice(s);
    var t := TrimStart(s);
    if Trim(s) != [] {
      assert Trim(s)[0] == t[0];
    }
  }

  /** A string with no whitespace at either end is its own trim. */
  lemma {:induction false} TrimFixesTrimmed(s: string)
    requires s == [] || (!IsWhitespace(s[0]) && !IsWhitespace(s[|s| - 1]))
    ensures Trim(s) == s
  {
  }

  lemma TrimIdempotent(s: string)
    ensures Trim(Trim(s)) == Trim(s)
  {
    TrimIsInfix(s);
    TrimFixesTrimmed(Trim(s));
  }

  function UpperAscii(c: char): char {
    if 'a' <= c <= 'z' then (c as int - 32) as char else c
  }

  function LowerAscii(c: char): char {
    if 'A' <= c <= 'Z' then (c as int + 32) as char else c
  }

  /** `toUpperCase`, restricted to the ASCII letters. */
  function ToUpper(s: string): (r: string)
    ensures |r| == |s|
    ensures forall i | 0 <= i < |s| :: r[i] == UpperAscii(s[i])
  {
    if s == [] then [] else [UpperAscii(s[0])] + ToUpper(s[1..])
  }

  /** `toLowerCase`, restricted to the ASCII letters. */
  function ToLower(s: string): (r: string)
    ensures |r| == |s|
    ensures forall i | 0 <= i < |s| :: r[i] == LowerAscii(s[i])
  {
    if s == [] then [] else [LowerAscii(s[0])] + ToLower(s[1..])
  }

  /** No lower-case ASCII letter survives ToUpper, and ToUpper is idempotent. */
  lemma ToUpperIdempotent(s: string)
    ensures forall i | 0 <= i < |ToUpper(s)| :: !('a' <= ToUpper(s)[i] <= 'z')
    ensures ToUpper(ToUpper(s)) == ToUpper(s)
  {
  }

  /** `needle` occurs in `haystack` starting at position `i`. */
  predicate OccursAt(haystack: string, needle: string, i: int) {
    0 <= i <= |haystack| - |needle| && haystack[i..i + |needle|] == needle
  }

  /** `haystack.includes(needle)`: only a needle no longer than the haystack can occur,
      and a prefix always does. */
  predicate Includes(haystack: string, needle: string)
    ensures Includes(haystack, needle) ==> |needle| <= |haystack|
    ensures |needle| <= |haystack| && haystack[..|needle|] == needle ==> Includes(haystack, needle)
  {
    assert |needle| <= |haystack| && haystack[..|needle|] == needle ==> OccursAt(haystack, needle, 0);
    exists i | 0 <= i <= |haystack| - |needle| :: OccursAt(haystack, needle, i)
  }

  lemma IncludesEmpty(haystack: string)
    ensures Includes(haystack, "")
  {
    assert OccursAt(haystack, "", 0);
  }

  /** Number of UTF-16 code units JavaScript's `length` reports for `s`. */
  function Utf16Length(s: string): (n: nat)
    ensures |s| <= n <= 2 * |s|
    ensures n == |s| <==> forall i | 0 <= i < |s| :: s[i] as int <= 0xFFFF
  {
    if s == [] then 0 else (if s[0] as int > 0xFFFF then 2 else 1) + Utf16Length(s[1..])
  }

  function DigitChar(d: nat): char
    requires d < 10
  {
    ('0' as int + d) as char
  }

  /** The decimal rendering of a natural number, without leading zeros. */
  function Decimal(n: nat): (r: string)
    ensures r != [] && forall i | 0 <= i < |r| :: IsDigit(r[i])
    ensures |r| > 1 ==> r[0] != '0'
    decreases n
  {
    if n < 10 then [DigitChar(n)] else Decimal(n / 10) + [DigitChar(n % 10)]
  }

  function DigitValue(c: char): (d: nat)
    requires IsDigit(c)
    ensures d < 10 && DigitChar(d) == c
  {
    c as int - '0' as int
  }

  /** The value of a string of decimal digits. */
  function DecimalValue(s: string): nat
    requires forall i | 0 <= i < |s| :: IsDigit(s[i])
  {
    if s == [] then 0 else 10 * DecimalValue(s[..|s| - 1]) + DigitValue(s[|s| - 1])
  }

  /** Reading back a rendered number gives the number. */
  lemma {:induction false} DecimalRoundTrip(n: nat)
    ensures DecimalValue(Decimal(n)) == n
    decreases n
  {
    if n >= 10 {
      var r := Decimal(n);
      assert r[..|r| - 1] == Decimal(n / 10);
      DecimalRoundTrip(n / 10);
    }
  }
}
