/**
 * The JavaScript string built-ins the handlers and scripts rely on:
 * `trim`, and `parseInt` without a radix.
 */
module JsText {
  import opened Wrappers

  /** The characters `String.prototype.trim` removes: white space and line terminators. */
  predicate IsJsWhitespace(c: char) {
    var n := c as int;
    || n == 0x09 || n == 0x0B || n == 0x0C || n == 0x20 || n == 0xA0 || n == 0xFEFF   // white space
    || n == 0x0A || n == 0x0D || n == 0x2028 || n == 0x2029                           // line terminators
    || n == 0x1680 || (0x2000 <= n <= 0x200A) || n == 0x202F || n == 0x205F || n == 0x3000  // other Zs
  }

  /** `trimStart`. */
  function TrimStart(s: string): (r: string)
    ensures |r| <= |s| && r == s[|s| - |r|..]
    ensures |r| > 0 ==> !IsJsWhitespace(r[0])
    ensures forall k :: 0 <= k < |s| - |r| ==> IsJsWhitespace(s[k])
  {
    if |s| > 0 && IsJsWhitespace(s[0]) then TrimStart(s[1..]) else s
  }

  /** `trimEnd`. */
  function TrimEnd(s: string): (r: string)
    ensures |r| <= |s| && r == s[..|r|]
    ensures |r| > 0 ==> !IsJsWhitespace(r[|r| - 1])
    ensures forall k :: |r| <= k < |s| ==> IsJsWhitespace(s[k])
  {
    if |s| > 0 && IsJsWhitespace(s[|s| - 1]) then TrimEnd(s[..|s| - 1]) else s
  }

  /** `trim`. */
  function Trim(s: string): string {
    TrimEnd(TrimStart(s))
  }

  /** A string trims to the empty string exactly when every character is white space. */
  lemma TrimEmptyIffBlank(s: string)
    ensures Trim(s) == "" <==> forall k :: 0 <= k < |s| ==> IsJsWhitespace(s[k])
  {
    var t := TrimStart(s);
    if forall k :: 0 <= k < |s| ==> IsJsWhitespace(s[k]) {
      if |t| > 0 {
        assert t[0] == s[|s| - |t|];
      }
    } else {
      var k :| 0 <= k < |s| && !IsJsWhitespace(s[k]);
      assert |t| > 0;
      assert !IsJsWhitespace(t[0]);
    }
  }

  predicate IsDigit(c: char) {
    '0' <= c <= '9'
  }

  function DigitValue(c: char): int
    requires IsDigit(c)
  {
    c as int - '0' as int
  }

  predicate IsHexDigit(c: char) {
    IsDigit(c) || ('a' <= c <= 'f') || ('A' <= c <= 'F')
  }

  function HexDigitValue(c: char): int
    requires IsHexDigit(c)
  {
    if IsDigit(c) then DigitValue(c) else if 'a' <= c <= 'f' then c as int - 'a' as int + 10 else c as int - 'A' as int + 10
  }

  /** The longest prefix whose characters satisfy `p`. */
  function LongestPrefix(s: string, p: char -> bool): (r: string)
    ensures |r| <= |s| && r == s[..|r|]
    ensures forall k :: 0 <= k < |r| ==> p(r[k])
    ensures |r| < |s| ==> !p(s[|r|])
  {
    if |s| > 0 && p(s[0]) then [s[0]] + LongestPrefix(s[1..], p) else []
  }

  /** The value of a numeral in base `b`, most significant digit first. */
  function NumeralValue(d: string, b: int, digit: char -> bool, value: char --> int): int
    requires forall k :: 0 <= k < |d| ==> digit(d[k]) && value.requires(d[k])
  {
    if |d| == 0 then 0 else NumeralValue(d[..|d| - 1], b, digit, value) * b + value(d[|d| - 1])
  }

  function DecimalValue(d: string): int
    requires forall k :: 0 <= k < |d| ==> IsDigit(d[k])
  {
    NumeralValue(d, 10, IsDigit, DigitValue)
  }

  /** The magnitude `parseInt` reads after the sign: a `0x`/`0X` prefix selects base 16, otherwise base 10. */
  function Magnitude(u: string): Option<int> {
    if |u| >= 2 && u[0] == '0' && (u[1] == 'x' || u[1] == 'X') then
      var d := LongestPrefix(u[2..], IsHexDigit);
      if |d| == 0 then None else Some(NumeralValue(d, 16, IsHexDigit, HexDigitValue))
    else
      var d := LongestPrefix(u, IsDigit);
      if |d| == 0 then None else Some(DecimalValue(d))
  }

  /**
   * `parseInt(s)`: leading white space and one sign skipped, then the longest
   * run of digits read and the rest ignored. None is `NaN`: no digit at all.
   */
  function ParseInt(s: string): Option<int> {
    var t := TrimStart(s);
    var signed := |t| > 0 && (t[0] == '-' || t[0] == '+');
    var m := Magnitude(if signed then t[1..] else t);
    if m.None? then None else Some(if signed && t[0] == '-' then -m.value else m.value)
  }

  /** A run of decimal digits parses to its value, and so does one followed by a non-digit (not read as `0x`). */
  lemma ParseIntDecimal(d: string, rest: string)
    requires |d| > 0 && forall k :: 0 <= k < |d| ==> IsDigit(d[k])
    requires |rest| > 0 ==> !IsDigit(rest[0]) && rest[0] != 'x' && rest[0] != 'X'
    ensures ParseInt(d + rest) == Some(DecimalValue(d))
  {
    var s := d + rest;
    DigitStartIsUnsigned(s);
    assert !(|s| >= 2 && s[0] == '0' && (s[1] == 'x' || s[1] == 'X')) by {
      if |d| == 1 && |s| >= 2 { assert s[1] == rest[0]; }
      else if |s| >= 2 { assert s[1] == d[1] && IsDigit(d[1]); }
    }
    LongestPrefixOfDigits(d, rest);
    assert Magnitude(s) == Some(DecimalValue(d));
  }

  /** A string that starts with a digit is read with no white space and no sign skipped. */
  lemma DigitStartIsUnsigned(s: string)
    requires |s| > 0 && IsDigit(s[0])
    ensures ParseInt(s) == Magnitude(s)
  {
    assert TrimStart(s) == s;
  }

  lemma {:induction false} LongestPrefixOfDigits(d: string, rest: string)
    requires forall k :: 0 <= k < |d| ==> IsDigit(d[k])
    requires |rest| > 0 ==> !IsDigit(rest[0])
    ensures LongestPrefix(d + rest, IsDigit) == d
  {
    if |d| > 0 {
      assert (d + rest)[0] == d[0];
      assert (d + rest)[1..] == d[1..] + rest;
      LongestPrefixOfDigits(d[1..], rest);
      assert d == [d[0]] + d[1..];
    } else {
      assert d + rest == rest;
    }
  }

  /** A string without any digit after the white space and sign is `NaN`. */
  lemma ParseIntNaN(s: string)
    requires |s| > 0 && !IsDigit(s[0]) && !IsJsWhitespace(s[0]) && s[0] != '-' && s[0] != '+'
    ensures ParseInt(s).None?
  {
  }
}
