/** Characters and strings as the JavaScript code sees them: the regex character
    classes `\d`, `\w` and `\s`, `trim`, ASCII `toLowerCase`, `substring(0, n)`,
    decimal rendering of integers and `parseInt`. */
module Text {
  import opened Wrappers

  /** `\d` without the `u` flag: ASCII digits only. */
  predicate IsDigit(c: char) {
    '0' <= c <= '9'
  }

  /** `\w`, the characters on one side of a `\b` word boundary. */
  predicate IsWordChar(c: char) {
    'a' <= c <= 'z' || 'A' <= c <= 'Z' || IsDigit(c) || c == '_'
  }

  /** `\s`: the white-space and line-terminator code points of ECMAScript,
      which are also the ones `String.prototype.trim` removes. */
  predicate IsSpace(c: char) {
    || c == '\t' || c == '\n' || c == '\U{B}' || c == '\U{C}' || c == '\r'
    || c == ' ' || c == '\U{A0}' || c == '\U{1680}'
    || ('\U{2000}' <= c <= '\U{200A}')
    || c == '\U{2028}' || c == '\U{2029}' || c == '\U{202F}' || c == '\U{205F}'
    || c == '\U{3000}' || c == '\U{FEFF}'
  }

  predicate AllDigits(s: string) {
    forall i :: 0 <= i < |s| ==> IsDigit(s[i])
  }

  predicate StartsWith(s: string, prefix: string) {
    |prefix| <= |s| && s[..|prefix|] == prefix
  }

  /** `s.substring(0, n)` and `a.slice(0, n)` for `n >= 0`: JavaScript clamps the
      end to the length. */
  function Take<T>(s: seq<T>, n: nat): (r: seq<T>)
    ensures |r| == if n < |s| then n else |s|
    ensures r <= s
  {
    if n < |s| then s[..n] else s
  }

  /** ASCII part of `toLowerCase`; other characters are left as they are. */
  function LowerChar(c: char): char {
    if 'A' <= c <= 'Z' then (c as int + 32) as char else c
  }

  function ToLower(s: string): (r: string)
    ensures |r| == |s|
    ensures forall i :: 0 <= i < |s| ==> r[i] == LowerChar(s[i])
  {
    seq(|s|, i requires 0 <= i < |s| => LowerChar(s[i]))
  }

  function TrimStart(s: string): (r: string)
    ensures |r| <= |s| && r == s[|s| - |r|..]
    ensures r == [] || !IsSpace(r[0])
    ensures forall i :: 0 <= i < |s| - |r| ==> IsSpace(s[i])
  {
    if s == [] || !IsSpace(s[0]) then s else TrimStart(s[1..])
  }

  function TrimEnd(s: string): (r: string)
    ensures |r| <= |s| && r == s[..|r|]
    ensures r == [] || !IsSpace(r[|r| - 1])
    ensures forall i :: |r| <= i < |s| ==> IsSpace(s[i])
  {
    if s == [] || !IsSpace(s[|s| - 1]) then s else TrimEnd(s[..|s| - 1])
  }

  /** `String.prototype.trim`. */
  function Trim(s: string): string {
    TrimEnd(TrimStart(s))
  }

  // ----- decimal numerals ---------------------------------------------------

  function DigitChar(d: nat): (c: char)
    requires d < 10
    ensures IsDigit(c)
  {
    ('0' as int + d) as char
  }

  function DigitValue(c: char): (d: nat)
    requires IsDigit(c)
    ensures d < 10
  {
    c as int - '0' as int
  }

  /** The decimal text JavaScript produces for a non-negative integer. */
  function NatToString(n: nat): (s: string)
    ensures |s| >= 1 && AllDigits(s)
  {
    if n < 10 then [DigitChar(n)] else NatToString(n / 10) + [DigitChar(n % 10)]
  }

  /** `String(i)` for an integer `i` (below 10^21, where JavaScript switches to exponent form). */
  function IntToString(i: int): string {
    if i < 0 then "-" + NatToString(-i) else NatToString(i)
  }

  /** The value of a run of decimal digits, as `parseInt` reads it. */
  function DigitsValue(s: string): nat
    requires AllDigits(s)
  {
    if s == [] then 0 else DigitsValue(s[..|s| - 1]) * 10 + DigitValue(s[|s| - 1])
  }

  /** Reading back the decimal text of `n` gives `n`. */
  lemma {:induction false} DigitsValueOfNatToString(n: nat)
    ensures DigitsValue(NatToString(n)) == n
  {
    if n >= 10 {
      var s := NatToString(n);
      assert s[..|s| - 1] == NatToString(n / 10);
      DigitsValueOfNatToString(n / 10);
    }
  }

  lemma NatToStringInjective(a: nat, b: nat)
    requires NatToString(a) == NatToString(b)
    ensures a == b
  {
    DigitsValueOfNatToString(a);
    DigitsValueOfNatToString(b);
  }

  // ----- parseInt -----------------------------------------------------------

  /** Length of the longest prefix of `s` made of digits. */
  function DigitPrefixLength(s: string): (n: nat)
    ensures n <= |s| && AllDigits(s[..n])
    ensures n < |s| ==> !IsDigit(s[n])
  {
    if s == [] || !IsDigit(s[0]) then 0
    else
      var k := DigitPrefixLength(s[1..]);
      assert s[..k + 1] == [s[0]] + s[1..][..k];
      k + 1
  }

  predicate IsHexDigit(c: char) {
    IsDigit(c) || 'a' <= c <= 'f' || 'A' <= c <= 'F'
  }

  function HexDigitValue(c: char): (d: nat)
    requires IsHexDigit(c)
    ensures d < 16
  {
    if IsDigit(c) then DigitValue(c)
    else if 'a' <= c <= 'f' then c as int - 'a' as int + 10
    else c as int - 'A' as int + 10
  }

  function HexPrefixLength(s: string): (n: nat)
    ensures n <= |s|
    ensures forall i :: 0 <= i < n ==> IsHexDigit(s[i])
  {
    if s == [] || !IsHexDigit(s[0]) then 0 else HexPrefixLength(s[1..]) + 1
  }

  function HexValue(s: string): nat
    requires forall i :: 0 <= i < |s| ==> IsHexDigit(s[i])
  {
    if s == [] then 0 else HexValue(s[..|s| - 1]) * 16 + HexDigitValue(s[|s| - 1])
  }

  /** The number `parseInt` reads after the sign: an optional `0x`/`0X` prefix that
      switches to base 16, then the longest digit run; `None` when that run is empty. */
  function Magnitude(u: string): (m: Option<nat>)
    ensures AllDigits(u) ==> m == (if u == [] then None else Some(DigitsValue(u)))
  {
    assert AllDigits(u) ==> !StartsWith(u, "0x") && !StartsWith(u, "0X") by {
      if AllDigits(u) {
        DigitsAreNotHex(u);
      }
    }
    if StartsWith(u, "0x") || StartsWith(u, "0X") then
      var h := HexPrefixLength(u[2..]);
      if h == 0 then None else Some(HexValue(u[2..][..h]))
    else
      var d := DigitPrefixLength(u);
      assert AllDigits(u) ==> d == |u| && u[..d] == u by {
        if AllDigits(u) {
          DigitPrefixOfAllDigits(u);
        }
      }
      if d == 0 then None else Some(DigitsValue(u[..d]))
  }

  /** `parseInt(s)` with no radix: leading white space, an optional sign, then the
      magnitude. `None` is `NaN`. Negative zero is not told apart from zero. */
  function ParseInt(s: string): (r: Option<int>)
    ensures AllDigits(s) ==> r == (if s == [] then None else Some(DigitsValue(s)))
  {
    assert AllDigits(s) ==> TrimStart(s) == s;
    SignedMagnitude(TrimStart(s))
  }

  /** The optional sign and the magnitude after it, on text that starts with no
      white space. */
  function SignedMagnitude(t: string): (r: Option<int>)
    ensures AllDigits(t) ==> r == (if t == [] then None else Some(DigitsValue(t)))
  {
    if |t| > 0 && t[0] == '-' then
      match Magnitude(t[1..])
      case None => None
      case Some(m) => Some(0 - m as int)
    else if |t| > 0 && t[0] == '+' then
      match Magnitude(t[1..])
      case None => None
      case Some(m) => Some(m as int)
    else
      match Magnitude(t)
      case None => None
      case Some(m) => Some(m as int)
  }

  /** A whole run of digits is its own digit prefix. */
  lemma DigitPrefixOfAllDigits(s: string)
    requires AllDigits(s)
    ensures DigitPrefixLength(s) == |s|
  {
  }

  lemma DigitsAreNotHex(u: string)
    requires AllDigits(u)
    ensures !StartsWith(u, "0x") && !StartsWith(u, "0X")
  {
    if |u| >= 2 {
      assert u[..2][1] == u[1];
    }
  }

  /** A minus sign followed by digits reads as the negated digits. */
  lemma ParseIntNegativeAt(t: string, d: string)
    requires |t| > 1 && t[0] == '-' && t[1..] == d && |d| > 0 && AllDigits(d)
    ensures ParseInt(t) == Some(0 - DigitsValue(d))
  {
    assert TrimStart(t) == t;
    assert Magnitude(d) == Some(DigitsValue(d));
  }

  /** `parseInt` of a minus sign followed by digits. */
  lemma ParseIntNegative(d: string)
    requires |d| > 0 && AllDigits(d)
    ensures ParseInt("-" + d) == Some(0 - DigitsValue(d))
  {
    var t := "-" + d;
    assert t[0] == '-' && t[1..] == d;
    ParseIntNegativeAt(t, d);
  }

  /** `parseInt(String(i))` reads back `i`. */
  lemma ParseIntOfIntToString(i: int)
    ensures ParseInt(IntToString(i)) == Some(i)
  {
    if i >= 0 {
      ParseIntOfNatToString(i);
    } else {
      var d := NatToString(-i);
      assert IntToString(i) == "-" + d;
      DigitsValueOfNatToString(-i);
      ParseIntNegative(d);
    }
  }

  lemma ParseIntOfNatToString(n: nat)
    ensures ParseInt(NatToString(n)) == Some(n)
  {
    DigitsValueOfNatToString(n);
  }
}
