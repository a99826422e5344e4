/**
 * The parts of JavaScript's string and number semantics that the upload pipeline relies on:
 * the white-space class `\s`, `parseInt`, whether `parseFloat` gives NaN, and `String(n)` for
 * integers. Strings are sequences of code points; `None` stands for NaN.
 */
module JsText {
  import opened Wrappers

  /** The code points ECMAScript counts as WhiteSpace or LineTerminator: what `\s` matches in a
      regular expression, and what parseInt and parseFloat skip at the front of their argument. */
  predicate IsJsSpace(c: char) {
    var n := c as int;
    n == 0x09 || n == 0x0A || n == 0x0B || n == 0x0C || n == 0x0D || n == 0x20 || n == 0xA0
    || n == 0x1680 || (0x2000 <= n <= 0x200A) || n == 0x2028 || n == 0x2029 || n == 0x202F
    || n == 0x205F || n == 0x3000 || n == 0xFEFF
  }

  /** The code points that `.` in a regular expression does not match. */
  predicate IsLineTerminator(c: char) {
    var n := c as int;
    n == 0x0A || n == 0x0D || n == 0x2028 || n == 0x2029
  }

  /** `\d` */
  predicate IsDigit(c: char) {
    '0' <= c <= '9'
  }

  predicate IsAsciiLetter(c: char) {
    'A' <= c <= 'Z' || 'a' <= c <= 'z'
  }

  /** `/^\d*$/.test(s)`: the empty string passes. */
  predicate IsDigits(s: string) {
    forall i | 0 <= i < |s| :: IsDigit(s[i])
  }

  predicate IsHexDigit(c: char) {
    IsDigit(c) || 'a' <= c <= 'f' || 'A' <= c <= 'F'
  }

  function HexDigitValue(c: char): (d: nat)
    requires IsHexDigit(c)
    ensures d < 16
    ensures IsDigit(c) <==> d < 10
  {
    if IsDigit(c) then (c as int) - ('0' as int)
    else if 'a' <= c <= 'f' then (c as int) - ('a' as int) + 10
    else (c as int) - ('A' as int) + 10
  }

  /** A digit of base `radix` (10 or 16 here). */
  predicate IsRadixDigit(c: char, radix: nat) {
    IsHexDigit(c) && HexDigitValue(c) < radix
  }

  predicate AllRadixDigits(s: string, radix: nat) {
    forall i | 0 <= i < |s| :: IsRadixDigit(s[i], radix)
  }

  /** The value of a digit string in base `radix`, most significant digit first; 0 for "". */
  function Value(s: string, radix: nat): nat
    requires AllRadixDigits(s, radix)
  {
    if |s| == 0 then 0
    else Value(s[..|s| - 1], radix) * radix + HexDigitValue(s[|s| - 1])
  }

  /** The value of a decimal digit string. */
  function DecimalValue(s: string): nat
    requires IsDigits(s)
  {
    assert AllRadixDigits(s, 10) by {
      forall i | 0 <= i < |s| ensures IsRadixDigit(s[i], 10) {
        assert IsDigit(s[i]);
      }
    }
    Value(s, 10)
  }

  /** The value of a hexadecimal digit string. */
  function HexValue(s: string): nat
    requires AllRadixDigits(s, 16)
  {
    Value(s, 16)
  }

  /** What is left after the leading white space is skipped. */
  function TrimStart(s: string): (r: string)
    ensures |r| <= |s| && r == s[|s| - |r|..]
    ensures forall i | 0 <= i < |s| - |r| :: IsJsSpace(s[i])
    ensures |r| > 0 ==> !IsJsSpace(r[0])
  {
    if |s| > 0 && IsJsSpace(s[0]) then TrimStart(s[1..]) else s
  }

  /** The longest prefix of `s` made of digits of base `radix`. */
  function DigitPrefix(s: string, radix: nat): (p: string)
    ensures |p| <= |s| && p == s[..|p|]
    ensures AllRadixDigits(p, radix)
    ensures |p| < |s| ==> !IsRadixDigit(s[|p|], radix)
  {
    if |s| == 0 || !IsRadixDigit(s[0], radix) then []
    else [s[0]] + DigitPrefix(s[1..], radix)
  }

  /** How parseInt is called: `parseInt(s, 10)` or `parseInt(s)` with no radix. */
  datatype Radix = Ten | Unspecified

  /** "0x" or "0X" at the front, which switches parseInt without a radix to base 16. */
  predicate HexPrefixed(u: string) {
    |u| >= 2 && u[0] == '0' && (u[1] == 'x' || u[1] == 'X')
  }

  /** The unsigned part of parseInt: without a radix a "0x" or "0X" prefix switches to base
      16; then the longest run of digits is read, and an empty run is NaN (None). */
  function ReadUnsigned(u: string, radix: Radix): (r: Option<nat>)
    ensures r.Some? ==> var j := if radix == Unspecified && HexPrefixed(u) then 2 else 0;
      j < |u| && IsHexDigit(u[j])
  {
    var hex := radix == Unspecified && HexPrefixed(u);
    var base := if hex then 16 else 10;
    var digits := DigitPrefix(if hex then u[2..] else u, base);
    if |digits| == 0 then None else Some(Value(digits, base))
  }

  /** parseInt after the white space: an optional sign, then the unsigned part. */
  function ParseSigned(t: string, radix: Radix): (r: Option<int>)
    ensures r.Some? ==> exists i | 0 <= i < |t| :: IsHexDigit(t[i])
  {
    var negative := |t| > 0 && t[0] == '-';
    var u := if |t| > 0 && (t[0] == '-' || t[0] == '+') then t[1..] else t;
    match ReadUnsigned(u, radix)
    case None => None
    case Some(v) =>
      var j := if radix == Unspecified && HexPrefixed(u) then 2 else 0;
      assert IsHexDigit(t[|t| - |u| + j]);
      Some(if negative then -(v as int) else v)
  }

  /**
   * JavaScript's parseInt: skip leading white space, take an optional sign, then read the
   * unsigned part. The result is NaN (None) when there is no digit to read. Precision loss
   * beyond 2^53 is not modelled.
   */
  function ParseInt(s: string, radix: Radix): (r: Option<int>)
    ensures r.Some? ==> exists i | 0 <= i < |s| :: IsHexDigit(s[i])
  {
    var t := TrimStart(s);
    var r := ParseSigned(t, radix);
    assert r.Some? ==> exists i | 0 <= i < |s| :: IsHexDigit(s[i]) by {
      if r.Some? {
        var i :| 0 <= i < |t| && IsHexDigit(t[i]);
        assert s[|s| - |t| + i] == t[i];
      }
    }
    r
  }

  /** The text before the first `sep`, or all of `s` when it has none. */
  function UpTo(s: string, sep: char): (r: string)
    ensures |r| <= |s| && r == s[..|r|]
    ensures sep !in r
    ensures |r| < |s| ==> s[|r|] == sep
  {
    if |s| == 0 || s[0] == sep then "" else [s[0]] + UpTo(s[1..], sep)
  }

  /** `s.split(sep)[1]`: the piece between the first and the second separator, or up to the end;
      `undefined` (None) when `s` has no separator. */
  function SplitSecond(s: string, sep: char): (r: Option<string>)
    ensures r.None? <==> sep !in s
    ensures r.Some? ==> sep !in r.value
  {
    var head := UpTo(s, sep);
    if |head| == |s| then None else Some(UpTo(s[|head| + 1..], sep))
  }

  /** A MIME type "a/b" with no other separator splits to its subtype "b". */
  lemma SplitSecondOf(a: string, b: string, sep: char)
    requires sep !in a && sep !in b
    ensures SplitSecond(a + [sep] + b, sep) == Some(b)
  {
    var s := a + [sep] + b;
    UpToWhole(a, sep, [sep] + b);
    assert s == a + ([sep] + b);
    assert s[|a| + 1..] == b;
    UpToWhole(b, sep, []);
    assert b + [] == b;
  }

  lemma {:induction false} UpToWhole(a: string, sep: char, rest: string)
    requires sep !in a
    requires |rest| == 0 || rest[0] == sep
    ensures UpTo(a + rest, sep) == a
    decreases |a|
  {
    if |a| > 0 {
      assert (a + rest)[1..] == a[1..] + rest;
      UpToWhole(a[1..], sep, rest);
      assert a == [a[0]] + a[1..];
    } else {
      assert a + rest == rest;
    }
  }

  /** JavaScript truthiness of a string that may be missing: `undefined`, `null` and "" are falsy. */
  predicate Truthy(s: Option<string>) {
    s.Some? && s.value != ""
  }

  /** parseInt of a field that may be missing: `undefined` and `null` both parse to NaN. */
  function ParseIntField(field: Option<string>, radix: Radix): Option<int> {
    if field.None? then None else ParseInt(field.value, radix)
  }

  /** Whether parseFloat gives NaN: after leading white space and an optional sign, the text
      starts neither with "Infinity", nor with a digit, nor with "." followed by a digit. */
  predicate ParseFloatIsNaN(s: string) {
    var t := TrimStart(s);
    var u := if |t| > 0 && (t[0] == '-' || t[0] == '+') then t[1..] else t;
    !(|u| >= 8 && u[..8] == "Infinity")
    && !(|u| >= 1 && IsDigit(u[0]))
    && !(|u| >= 2 && u[0] == '.' && IsDigit(u[1]))
  }

  /** parseFloat of a field that may be missing. */
  predicate ParseFloatFieldIsNaN(field: Option<string>) {
    field.None? || ParseFloatIsNaN(field.value)
  }

  function DigitChar(d: nat): (c: char)
    requires d < 10
    ensures IsDigit(c) && HexDigitValue(c) == d
  {
    ('0' as int + d) as char
  }

  /** `String(n)` for a non-negative integer: its decimal digits, no leading zero. */
  function NatToString(n: nat): (s: string)
    ensures |s| >= 1 && IsDigits(s)
    ensures |s| > 1 ==> s[0] != '0'
  {
    if n < 10 then [DigitChar(n)] else NatToString(n / 10) + [DigitChar(n % 10)]
  }

  /** `String(n)` for an integer. */
  function IntToString(n: int): (s: string)
    ensures |s| >= 1
  {
    if n < 0 then "-" + NatToString(-n) else NatToString(n)
  }

  /** Reading the decimal digits of n gives back n. */
  lemma {:induction false} NatToStringValue(n: nat)
    ensures DecimalValue(NatToString(n)) == n
  {
    var s := NatToString(n);
    if n >= 10 {
      var p := NatToString(n / 10);
      NatToStringValue(n / 10);
      assert s == p + [DigitChar(n % 10)];
      assert s[..|s| - 1] == p;
      assert DecimalValue(s) == Value(s, 10) == Value(p, 10) * 10 + HexDigitValue(DigitChar(n % 10));
      assert Value(p, 10) == DecimalValue(p) == n / 10;
    } else {
      assert s[..|s| - 1] == [];
      assert DecimalValue(s) == Value(s, 10) == Value([], 10) * 10 + HexDigitValue(s[0]);
    }
  }

  /** parseInt reads a non-empty digit string as its decimal value, leading zeros included. */
  lemma ParseIntOfDigits(s: string, radix: Radix)
    requires |s| > 0 && IsDigits(s) && (radix == Unspecified ==> !HexPrefixed(s))
    ensures ParseInt(s, radix) == Some(DecimalValue(s))
  {
    assert "" + "" + s + "" == s && "" + s + "" == s;
    ParseIntDecimal("", "", s, "", radix);
  }

  /** A minus sign in front of a digit string negates what parseInt reads. */
  lemma ParseIntOfNegated(d: string, radix: Radix)
    requires |d| > 0 && IsDigits(d)
    ensures ParseInt("-" + d, radix) == Some(-(DecimalValue(d) as int))
  {
    assert "" + "-" + d + "" == "-" + d && d + "" == d;
    ParseIntDecimal("", "-", d, "", radix);
  }

  /** parseInt undoes String(n): a number the client writes with String(n) is read back as n by
      the server. */
  lemma ParseIntOfIntToString(n: int, radix: Radix)
    ensures ParseInt(IntToString(n), radix) == Some(n)
  {
    var m := if n < 0 then -n else n;
    var d := NatToString(m);
    NatToStringValue(m);
    if n < 0 {
      ParseIntOfNegated(d, radix);
    } else {
      assert |d| >= 2 ==> d[0] != '0';
      ParseIntOfDigits(d, radix);
    }
  }

  /** White space in front of text that does not start with white space is skipped whole. */
  lemma {:induction false} TrimStartOf(ws: string, t: string)
    requires forall i | 0 <= i < |ws| :: IsJsSpace(ws[i])
    requires |t| > 0 ==> !IsJsSpace(t[0])
    ensures TrimStart(ws + t) == t
    decreases |ws|
  {
    if |ws| == 0 {
      assert ws + t == t;
    } else {
      assert (ws + t)[1..] == ws[1..] + t;
      TrimStartOf(ws[1..], t);
    }
  }

  /** A run of digits followed by something that is not a digit is read whole. */
  lemma {:induction false} DigitPrefixOf(digits: string, rest: string, radix: nat)
    requires AllRadixDigits(digits, radix)
    requires |rest| > 0 ==> !IsRadixDigit(rest[0], radix)
    ensures DigitPrefix(digits + rest, radix) == digits
    decreases |digits|
  {
    if |digits| == 0 {
      assert digits + rest == rest;
    } else {
      assert (digits + rest)[1..] == digits[1..] + rest;
      DigitPrefixOf(digits[1..], rest, radix);
    }
  }

  /** Decimal digits are the digits of base 10. */
  lemma DecimalDigits(digits: string)
    requires IsDigits(digits)
    ensures AllRadixDigits(digits, 10)
  {
    forall i | 0 <= i < |digits| ensures IsRadixDigit(digits[i], 10) {
      assert IsDigit(digits[i]);
    }
  }

  /** parseInt skips the white space in front. */
  lemma ParseIntAfterSpace(ws: string, t: string, radix: Radix)
    requires forall i | 0 <= i < |ws| :: IsJsSpace(ws[i])
    requires |t| > 0 ==> !IsJsSpace(t[0])
    ensures ParseInt(ws + t, radix) == ParseSigned(t, radix)
  {
    TrimStartOf(ws, t);
  }

  /** The unsigned reading with the sign in front applied. */
  function Signed(sign: string, r: Option<nat>): Option<int> {
    match r
    case None => None
    case Some(v) => Some(if sign == "-" then -(v as int) else v)
  }

  /** After the white space, an optional sign and then the unsigned part. */
  lemma ParseIntSigned(sign: string, u: string, radix: Radix)
    requires sign == "" || sign == "+" || sign == "-"
    requires sign == "" && |u| > 0 ==> u[0] != '+' && u[0] != '-'
    ensures ParseSigned(sign + u, radix) == Signed(sign, ReadUnsigned(u, radix))
  {
    var t := sign + u;
    if sign != "" {
      assert t[0] == sign[0] && t[1..] == u;
    } else {
      assert t == u;
    }
  }

  /** A run of decimal digits followed by a non-digit, not "0x"-prefixed when no radix is given:
      its value, or NaN when the run is empty. */
  lemma ReadUnsignedDecimal(digits: string, rest: string, radix: Radix)
    requires IsDigits(digits) && (|rest| > 0 ==> !IsDigit(rest[0]))
    requires radix == Unspecified ==> !HexPrefixed(digits + rest)
    ensures ReadUnsigned(digits + rest, radix) == if |digits| == 0 then None else Some(DecimalValue(digits))
  {
    DecimalDigits(digits);
    DigitPrefixOf(digits, rest, 10);
  }

  /** "0x" or "0X", a run of hexadecimal digits and a non-digit, with no radix given: the run's
      base-16 value, or NaN when the run is empty. */
  lemma ReadUnsignedHex(x: char, digits: string, rest: string)
    requires x == 'x' || x == 'X'
    requires AllRadixDigits(digits, 16) && (|rest| > 0 ==> !IsRadixDigit(rest[0], 16))
    ensures ReadUnsigned(['0', x] + digits + rest, Unspecified)
         == if |digits| == 0 then None else Some(HexValue(digits))
  {
    var u := ['0', x] + (digits + rest);
    assert ['0', x] + digits + rest == u;
    assert HexPrefixed(u) by {
      assert u[0] == '0' && u[1] == x;
    }
    assert DigitPrefix(u[2..], 16) == digits by {
      assert u[2..] == digits + rest;
      DigitPrefixOf(digits, rest, 16);
    }
  }

  /**
   * parseInt in general, in base 10: white space, an optional sign, a run of decimal digits, and
   * whatever follows that is not a digit. The result is the signed value of the run, and NaN
   * exactly when the run is empty. Without a radix this holds unless the run starts "0x"/"0X".
   */
  lemma ParseIntDecimal(ws: string, sign: string, digits: string, rest: string, radix: Radix)
    requires forall i | 0 <= i < |ws| :: IsJsSpace(ws[i])
    requires sign == "" || sign == "+" || sign == "-"
    requires IsDigits(digits) && (|rest| > 0 ==> !IsDigit(rest[0]))
    requires |sign + digits + rest| > 0 ==> !IsJsSpace((sign + digits + rest)[0])
    requires sign == "" && |digits| == 0 && |rest| > 0 ==> rest[0] != '+' && rest[0] != '-'
    requires radix == Unspecified ==> !HexPrefixed(digits + rest)
    ensures var r := ParseInt(ws + sign + digits + rest, radix);
      && (r.None? <==> |digits| == 0)
      && (r.Some? ==> r.value == if sign == "-" then -(DecimalValue(digits) as int) else DecimalValue(digits))
  {
    var u := digits + rest;
    assert ws + sign + digits + rest == ws + (sign + u);
    ParseIntAfterSpace(ws, sign + u, radix);
    if sign == "" && |digits| > 0 {
      assert u[0] == digits[0] && IsDigit(digits[0]);
    }
    ParseIntSigned(sign, u, radix);
    ReadUnsignedDecimal(digits, rest, radix);
  }

  lemma Regroup(ws: string, sign: string, p: string, digits: string, rest: string)
    ensures ws + sign + p + digits + rest == ws + (sign + (p + digits + rest))
  {
    assert ws + sign + p + digits == ws + (sign + p + digits);
    assert sign + p + digits + rest == sign + (p + digits + rest);
  }

  /** After the white space: an optional sign, "0x" or "0X", and a run of hexadecimal digits. */
  lemma ParseSignedHex(sign: string, prefix: string, digits: string, rest: string)
    requires sign == "" || sign == "+" || sign == "-"
    requires |prefix| == 2 && HexPrefixed(prefix)
    requires AllRadixDigits(digits, 16) && (|rest| > 0 ==> !IsRadixDigit(rest[0], 16))
    ensures ParseSigned(sign + (prefix + digits + rest), Unspecified)
         == Signed(sign, if |digits| == 0 then None else Some(HexValue(digits)))
  {
    var u := prefix + digits + rest;
    assert ReadUnsigned(u, Unspecified) == if |digits| == 0 then None else Some(HexValue(digits)) by {
      assert prefix == ['0', prefix[1]];
      ReadUnsignedHex(prefix[1], digits, rest);
    }
    ParseIntSigned(sign, u, Unspecified);
  }

  /**
   * parseInt without a radix on a "0x"/"0X" prefix: white space, an optional sign, the prefix, a
   * run of hexadecimal digits and whatever follows that is not one. The result is the signed
   * base-16 value of the run, and NaN exactly when the run is empty.
   */
  lemma ParseIntHex(ws: string, sign: string, prefix: string, digits: string, rest: string)
    requires forall i | 0 <= i < |ws| :: IsJsSpace(ws[i])
    requires sign == "" || sign == "+" || sign == "-"
    requires |prefix| == 2 && HexPrefixed(prefix)
    requires AllRadixDigits(digits, 16) && (|rest| > 0 ==> !IsRadixDigit(rest[0], 16))
    ensures ParseInt(ws + sign + prefix + digits + rest, Unspecified)
         == Signed(sign, if |digits| == 0 then None else Some(HexValue(digits)))
  {
    var t := sign + (prefix + digits + rest);
    assert ws + sign + prefix + digits + rest == ws + t by {
      Regroup(ws, sign, prefix, digits, rest);
    }
    assert t[0] == (if sign == "" then '0' else sign[0]);
    ParseIntAfterSpace(ws, t, Unspecified);
    ParseSignedHex(sign, prefix, digits, rest);
  }
}
