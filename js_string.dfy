/**
 * The JavaScript string operations the handlers rely on: `split` and `join` on one
 * separator character, `startsWith`, `String(n)` for integers and the global `parseInt`.
 */
module JsString {
  import opened Wrappers

  /** `parts.join(sep)`. */
  function Join(parts: seq<string>, sep: char): string
  {
    if |parts| == 0 then ""
    else if |parts| == 1 then parts[0]
    else parts[0] + [sep] + Join(parts[1..], sep)
  }

  /** `s.split(sep)` for a one-character separator: never empty, no part holds `sep`, and joining restores `s`. */
  function Split(s: string, sep: char): (parts: seq<string>)
    ensures |parts| >= 1
    ensures forall i :: 0 <= i < |parts| ==> sep !in parts[i]
    ensures Join(parts, sep) == s
    decreases |s|
  {
    if s == [] then [""]
    else
      var rest := Split(s[1..], sep);
      if s[0] == sep then
        [""] + rest
      else
        var parts := [[s[0]] + rest[0]] + rest[1..];
        assert parts[1..] == rest[1..];
        parts
  }

  /** `parts.pop()` on a non-empty array: its last element. */
  function Last(parts: seq<string>): string
    requires |parts| >= 1
  {
    parts[|parts| - 1]
  }

  /** `s.startsWith(prefix)`. */
  predicate StartsWith(s: string, prefix: string)
  {
    |prefix| <= |s| && s[..|prefix|] == prefix
  }

  /** The first part of a split is the text before the first separator (or all of `s`). */
  lemma {:induction false} SplitFirst(s: string, sep: char)
    ensures var f := Split(s, sep)[0];
      |f| <= |s| && s[..|f|] == f && (|f| == |s| || s[|f|] == sep)
    decreases |s|
  {
    if s != [] && s[0] != sep {
      SplitFirst(s[1..], sep);
    }
  }

  /** The last part of a split is the text after the last separator (or all of `s`). */
  lemma {:induction false} SplitLast(s: string, sep: char)
    ensures var l := Last(Split(s, sep));
      |l| <= |s| && s[|s| - |l|..] == l && (|l| == |s| || s[|s| - |l| - 1] == sep)
    decreases |s|
  {
    if s != [] {
      SplitLast(s[1..], sep);
      var rest := Split(s[1..], sep);
      if s[0] != sep && |rest| == 1 {
        assert Last(Split(s, sep)) == [s[0]] + rest[0];
      }
    }
  }

  function DigitChar(d: nat): (c: char)
    requires d < 10
    ensures '0' <= c <= '9'
  {
    ('0' as int + d) as char
  }

  /** `String(n)` for a non-negative integer: decimal digits without leading zeros. */
  function NatToString(n: nat): (s: string)
    ensures |s| >= 1
    ensures forall i :: 0 <= i < |s| ==> '0' <= s[i] <= '9'
    ensures s[0] == '0' ==> n == 0 && s == "0"
    decreases n
  {
    if n < 10 then [DigitChar(n)] else NatToString(n / 10) + [DigitChar(n % 10)]
  }

  /** `String(i)` for an integer. */
  function IntToString(i: int): string
  {
    if i < 0 then "-" + NatToString(-i) else NatToString(i)
  }

  /** The characters `parseInt` skips before the number (StrWhiteSpaceChar of ECMAScript). */
  predicate IsJsWhitespace(c: char)
  {
    c in {'\t', '\n', '\U{000B}', '\U{000C}', '\r', ' ', '\U{00A0}', '\U{1680}', '\U{2028}',
          '\U{2029}', '\U{202F}', '\U{205F}', '\U{3000}', '\U{FEFF}'}
    || '\U{2000}' <= c <= '\U{200A}'
  }

  /** The string with its leading whitespace removed. */
  function TrimStart(s: string): (t: string)
    ensures |t| <= |s| && t == s[|s| - |t|..]
    ensures t == [] || !IsJsWhitespace(t[0])
    ensures forall i :: 0 <= i < |s| - |t| ==> IsJsWhitespace(s[i])
  {
    if s != [] && IsJsWhitespace(s[0]) then TrimStart(s[1..]) else s
  }

  /** The value of a digit in radices up to 36; 36 for a character that is no digit. */
  function DigitValue(c: char): (d: nat)
    ensures d <= 36
  {
    if '0' <= c <= '9' then c as int - '0' as int
    else if 'a' <= c <= 'z' then c as int - 'a' as int + 10
    else if 'A' <= c <= 'Z' then c as int - 'A' as int + 10
    else 36
  }

  /** The length of the longest prefix of `s` made of digits of `radix`. */
  function DigitRun(s: string, radix: nat): (n: nat)
    ensures n <= |s|
    ensures forall i :: 0 <= i < n ==> DigitValue(s[i]) < radix
    ensures n == |s| || DigitValue(s[n]) >= radix
  {
    if s != [] && DigitValue(s[0]) < radix then 1 + DigitRun(s[1..], radix) else 0
  }

  /** The number a run of digits denotes in `radix`. */
  function DigitsValue(ds: string, radix: nat): nat
  {
    if ds == [] then 0
    else DigitsValue(ds[..|ds| - 1], radix) * radix + DigitValue(ds[|ds| - 1])
  }

  /**
   * The global `parseInt(s)` without a radix argument: leading whitespace is skipped, one
   * sign is read, and the unsigned number that follows gives the value; `None` stands for
   * `NaN` (no digit at all).
   */
  function ParseInt(s: string): (r: Option<int>)
  {
    var t := TrimStart(s);
    if t != [] && t[0] == '-' then
      match ParseUnsigned(t[1..])
      case None => None
      case Some(value) => Some(-value)
    else if t != [] && t[0] == '+' then ParseUnsigned(t[1..])
    else ParseUnsigned(t)
  }

  /** After the sign: a `0x`/`0X` prefix switches to radix 16, otherwise radix 10. */
  function ParseUnsigned(u: string): Option<int>
  {
    if |u| >= 2 && u[0] == '0' && (u[1] == 'x' || u[1] == 'X') then LeadingNumber(u[2..], 16)
    else LeadingNumber(u, 10)
  }

  /** The value of the longest run of `radix` digits at the start of `v`; `None` when there is none. */
  function LeadingNumber(v: string, radix: nat): Option<int>
  {
    var n := DigitRun(v, radix);
    if n == 0 then None else Some(DigitsValue(v[..n], radix))
  }

  lemma {:induction false} DecimalDigitsValue(n: nat)
    ensures DigitRun(NatToString(n), 10) == |NatToString(n)|
    ensures DigitsValue(NatToString(n), 10) == n
    decreases n
  {
    var s := NatToString(n);
    if n >= 10 {
      DecimalDigitsValue(n / 10);
      assert s[..|s| - 1] == NatToString(n / 10);
    }
    DigitRunAll(s, 10);
  }

  lemma {:induction false} DigitRunAll(s: string, radix: nat)
    requires forall i :: 0 <= i < |s| ==> DigitValue(s[i]) < radix
    ensures DigitRun(s, radix) == |s|
    decreases |s|
  {
    if s != [] {
      DigitRunAll(s[1..], radix);
    }
  }

  /** Decimal numerals start with a digit, so `parseInt` reads them without skipping or a sign. */
  lemma NumeralStart(n: nat)
    ensures var s := NatToString(n);
      TrimStart(s) == s && s[0] != '-' && s[0] != '+' && (|s| >= 2 ==> s[1] != 'x' && s[1] != 'X')
  {
    var s := NatToString(n);
    assert '0' <= s[0] <= '9';
    assert !IsJsWhitespace(s[0]);
    assert |s| >= 2 ==> '0' <= s[1] <= '9';
  }

  /** `parseInt(String(n)) == n`: printing a non-negative integer and parsing it back is the identity. */
  lemma ParseIntOfNatToString(n: nat)
    ensures ParseInt(NatToString(n)) == Some(n)
  {
    var s := NatToString(n);
    NumeralStart(n);
    DecimalDigitsValue(n);
    assert s[..|s|] == s;
    assert LeadingNumber(s, 10) == Some(n);
    assert ParseUnsigned(s) == Some(n);
  }
}
