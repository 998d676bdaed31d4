/**
 * The string primitives the mod leans on: ordinal case-insensitive equality,
 * whitespace tests, trimming, joining, and the .NET integer and boolean parsers
 * used to read arguments and counters.
 */
module Text {
  import opened Wrappers

  const MinInt32: int := -2147483648
  const MaxInt32: int := 2147483647

  predicate IsInt32(n: int) {
    MinInt32 <= n <= MaxInt32
  }

  /** Two's-complement wrap-around of unchecked Int32 arithmetic. */
  function WrapInt32(n: int): (r: int)
    ensures IsInt32(r)
    ensures IsInt32(n) ==> r == n
    ensures (r - n) % 0x1_0000_0000 == 0
  {
    (n - MinInt32) % 0x1_0000_0000 + MinInt32
  }

  /** Incrementing the largest Int32 gives the smallest, and decrementing the smallest gives the largest. */
  lemma WrapInt32Edges()
    ensures WrapInt32(MaxInt32 + 1) == MinInt32
    ensures WrapInt32(MinInt32 - 1) == MaxInt32
  {
  }

  // ---------------------------------------------------------------------------
  // Case-insensitive comparison (ordinal, ASCII letters)
  // ---------------------------------------------------------------------------

  function LowerChar(c: char): char {
    if 'A' <= c <= 'Z' then (c as int + 32) as char else c
  }

  function Lower(s: string): string {
    seq(|s|, i requires 0 <= i < |s| => LowerChar(s[i]))
  }

  /** `EqualsIgnoreCase` / `StringComparison.OrdinalIgnoreCase`. */
  predicate EqualsIgnoreCase(a: string, b: string) {
    Lower(a) == Lower(b)
  }

  // ---------------------------------------------------------------------------
  // Whitespace
  // ---------------------------------------------------------------------------

  /** `char.IsWhiteSpace`: the Unicode space separators, line and paragraph separators, and U+0009-U+000D, U+0085. */
  predicate IsWhiteSpace(c: char) {
    c == ' ' || '\t' <= c <= '\r' || c == '\U{0085}' || c == '\U{00A0}' || c == '\U{1680}'
    || '\U{2000}' <= c <= '\U{200A}' || c == '\U{2028}' || c == '\U{2029}' || c == '\U{202F}'
    || c == '\U{205F}' || c == '\U{3000}'
  }

  /** `string.IsNullOrWhiteSpace`. */
  predicate IsNullOrWhiteSpace(s: Option<string>) {
    s.None? || forall i :: 0 <= i < |s.value| ==> IsWhiteSpace(s.value[i])
  }

  /** `string.TrimEnd()`: drops trailing whitespace and nothing else. */
  function TrimEnd(s: string): (r: string)
    ensures r <= s
    ensures r == [] || !IsWhiteSpace(r[|r| - 1])
    ensures forall i :: |r| <= i < |s| ==> IsWhiteSpace(s[i])
    decreases |s|
  {
    if |s| > 0 && IsWhiteSpace(s[|s| - 1]) then TrimEnd(s[..|s| - 1]) else s
  }

  /** `string.Join(sep, parts)`. */
  function Join(parts: seq<string>, sep: string): string
    decreases |parts|
  {
    if |parts| == 0 then ""
    else if |parts| == 1 then parts[0]
    else parts[0] + sep + Join(parts[1..], sep)
  }

  /** A join of two or more parts, or of one non-empty part, is non-empty. */
  lemma JoinEmpty(parts: seq<string>, sep: string)
    requires sep != ""
    ensures Join(parts, sep) == "" <==> (|parts| == 0 || (|parts| == 1 && parts[0] == ""))
  {
  }

  // ---------------------------------------------------------------------------
  // int.TryParse (NumberStyles.Integer) and Int32.ToString()
  // ---------------------------------------------------------------------------

  predicate IsDigit(c: char) {
    '0' <= c <= '9'
  }

  predicate AllDigits(s: string) {
    forall i :: 0 <= i < |s| ==> IsDigit(s[i])
  }

  /** The white space NumberStyles.Integer allows around a number: U+0009-U+000D and U+0020. */
  predicate IsNumberWhite(c: char) {
    c == ' ' || '\t' <= c <= '\r'
  }

  function TrimNumberWhiteStart(s: string): (r: string)
    ensures |r| <= |s|
    decreases |s|
  {
    if |s| > 0 && IsNumberWhite(s[0]) then TrimNumberWhiteStart(s[1..]) else s
  }

  function TrimNumberWhiteEnd(s: string): (r: string)
    ensures |r| <= |s|
    decreases |s|
  {
    if |s| > 0 && IsNumberWhite(s[|s| - 1]) then TrimNumberWhiteEnd(s[..|s| - 1]) else s
  }

  function DigitValue(c: char): nat
    requires IsDigit(c)
  {
    c as int - '0' as int
  }

  /** The value of a decimal digit string, most significant digit first. */
  function DigitsValue(s: string): nat
    requires AllDigits(s)
    decreases |s|
  {
    if |s| == 0 then 0 else DigitsValue(s[..|s| - 1]) * 10 + DigitValue(s[|s| - 1])
  }

  /** `int.TryParse(s, out n)`: white space around an optional sign and at least one digit, in Int32 range. */
  function ParseInt32(s: string): (r: Option<int>)
    ensures r.Some? ==> IsInt32(r.value)
  {
    var t := TrimNumberWhiteEnd(TrimNumberWhiteStart(s));
    var negative := |t| > 0 && t[0] == '-';
    var digits := if |t| > 0 && (t[0] == '-' || t[0] == '+') then t[1..] else t;
    if |digits| == 0 || !AllDigits(digits) then None
    else
      var magnitude: int := DigitsValue(digits);
      var v := if negative then -magnitude else magnitude;
      if IsInt32(v) then Some(v) else None
  }

  /** The decimal digits of a natural number, with no leading zero. */
  function NatDigits(n: nat): (s: string)
    ensures |s| >= 1 && AllDigits(s)
    ensures DigitsValue(s) == n
    ensures s[0] == '0' ==> n == 0
    decreases n
  {
    if n < 10 then [('0' as int + n) as char]
    else
      var prefix := NatDigits(n / 10);
      var last := ('0' as int + n % 10) as char;
      assert (prefix + [last])[..|prefix + [last]| - 1] == prefix;
      prefix + [last]
  }

  /** `Int32.ToString()` in the invariant culture. */
  function IntToString(n: int): string {
    if n < 0 then "-" + NatDigits(-n) else NatDigits(n)
  }

  lemma TrimNoWhite(s: string)
    requires |s| > 0 && !IsNumberWhite(s[0]) && !IsNumberWhite(s[|s| - 1])
    ensures TrimNumberWhiteEnd(TrimNumberWhiteStart(s)) == s
  {
  }

  /** Every Int32 counter written with ToString() reads back with int.TryParse. */
  lemma {:induction false} ParseIntToString(n: int)
    requires IsInt32(n)
    ensures ParseInt32(IntToString(n)) == Some(n)
  {
    var s := IntToString(n);
    var d := NatDigits(if n < 0 then -n else n);
    assert !IsNumberWhite(s[|s| - 1]) by {
      assert s[|s| - 1] == d[|d| - 1];
    }
    TrimNoWhite(s);
    if n < 0 {
      assert s[1..] == d;
    }
  }

  // ---------------------------------------------------------------------------
  // bool.TryParse
  // ---------------------------------------------------------------------------

  predicate IsBoolTrim(c: char) {
    IsWhiteSpace(c) || c == '\0'
  }

  function TrimBool(s: string): string
    decreases |s|
  {
    if |s| > 0 && IsBoolTrim(s[0]) then TrimBool(s[1..])
    else if |s| > 0 && IsBoolTrim(s[|s| - 1]) then TrimBool(s[..|s| - 1])
    else s
  }

  /** `bool.TryParse`: "true" or "false" in any letter case, with surrounding white space or NULs. */
  function ParseBool(s: string): (r: Option<bool>)
    ensures r == Some(true) <==> EqualsIgnoreCase(TrimBool(s), "true")
    ensures r == Some(false) <==> EqualsIgnoreCase(TrimBool(s), "false")
  {
    var t := TrimBool(s);
    if EqualsIgnoreCase(t, "true") then Some(true)
    else if EqualsIgnoreCase(t, "false") then Some(false)
    else None
  }
}
