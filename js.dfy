/** The JavaScript built-ins the product pipeline relies on: the number type
    with its NaN, `parseInt`, the part of `parseFloat` the price tokens
    need, `String.prototype.replace` with a string pattern, `slice`, and the
    decimal `toString` of a non-negative integer. Strings are sequences of
    characters. */
module Js {

  /** `null` / `undefined` versus a present value. */
  datatype Option<+T> = None | Some(value: T) {
    function GetOr(default: T): T {
      match this
      case Some(v) => v
      case None => default
    }
  }

  /** A JavaScript number: NaN or a finite value. Finite values are exact
      reals; IEEE-754 rounding and the infinities are not modelled. */
  datatype Number = NaN | Finite(value: real)

  /** `a - b`: NaN as soon as either operand is NaN. */
  function Sub(a: Number, b: Number): (r: Number)
    ensures r.NaN? <==> a.NaN? || b.NaN?
    ensures r.Finite? ==> r.value + b.value == a.value
  {
    if a.NaN? || b.NaN? then NaN else Finite(a.value - b.value)
  }

  /** `a + b`. */
  function Add(a: Number, b: Number): (r: Number)
    ensures r.NaN? <==> a.NaN? || b.NaN?
    ensures r.Finite? ==> r.value - b.value == a.value
  {
    if a.NaN? || b.NaN? then NaN else Finite(a.value + b.value)
  }

  predicate IsDigit(c: char) { '0' <= c <= '9' }

  predicate IsHexDigit(c: char) { IsDigit(c) || 'a' <= c <= 'f' || 'A' <= c <= 'F' }

  /** The value of a digit character (0 for a character that is not one). */
  function DigitValue(c: char): (d: nat)
    ensures d < 16
    ensures IsDigit(c) ==> d < 10
  {
    if IsDigit(c) then (c as int - '0' as int)
    else if 'a' <= c <= 'f' then (c as int - 'a' as int) + 10
    else if 'A' <= c <= 'F' then (c as int - 'A' as int) + 10
    else 0
  }

  function DigitChar(d: nat): (c: char)
    requires d < 10
    ensures IsDigit(c) && DigitValue(c) == d
  {
    ('0' as int + d) as char
  }

  ghost predicate AllDigits(s: string) { forall k :: 0 <= k < |s| ==> IsDigit(s[k]) }

  /** The value of a digit string in radix 16, or else in radix 10 (most
      significant digit first). */
  function RadixValue(s: string, radix: nat): nat
  {
    if s == [] then 0
    else
      var high := RadixValue(s[..|s| - 1], radix);
      (if radix == 16 then high * 16 else high * 10) + DigitValue(s[|s| - 1])
  }

  predicate IsRadixDigit(c: char, radix: nat) {
    if radix == 16 then IsHexDigit(c) else IsDigit(c)
  }

  /** The longest prefix of `s` made of decimal digits (radix 10) or of
      hexadecimal digits (radix 16). */
  function LeadingDigits(s: string, radix: nat): (d: string)
    ensures d <= s
  {
    if s != [] && IsRadixDigit(s[0], radix) then [s[0]] + LeadingDigits(s[1..], radix) else []
  }

  /** `LeadingDigits` is the longest prefix of digits: all of it is
      digits, and the character after it is not. */
  lemma {:induction false} LeadingDigitsSpec(s: string, radix: nat)
    ensures var d := LeadingDigits(s, radix);
      && (forall k :: 0 <= k < |d| ==> IsRadixDigit(d[k], radix))
      && (|d| < |s| ==> !IsRadixDigit(s[|d|], radix))
  {
    if s != [] && IsRadixDigit(s[0], radix) {
      LeadingDigitsSpec(s[1..], radix);
      var d := LeadingDigits(s, radix);
      assert d == [s[0]] + LeadingDigits(s[1..], radix);
    }
  }

  /** The characters `parseInt` skips at the front: the WhiteSpace and
      LineTerminator code points of ECMAScript (section 12.2 and 12.3 of
      ECMA-262). */
  predicate IsJsWhiteSpace(c: char) {
    c == '\t' || c == '\n' || c == '\U{000B}' || c == '\U{000C}' || c == '\r' || c == ' '
    || c == '\U{00A0}' || c == '\U{1680}' || ('\U{2000}' <= c <= '\U{200A}')
    || c == '\U{2028}' || c == '\U{2029}' || c == '\U{202F}' || c == '\U{205F}'
    || c == '\U{3000}' || c == '\U{FEFF}'
  }

  function TrimStart(s: string): (t: string)
    ensures t == [] || !IsJsWhiteSpace(t[0])
    ensures |t| <= |s| && t == s[|s| - |t|..]
  {
    if s != [] && IsJsWhiteSpace(s[0]) then TrimStart(s[1..]) else s
  }

  /** `parseInt(s)` with no radix argument (section 19.2.5 of ECMA-262):
      leading white space is skipped, one `+` or `-` is taken as the sign,
      a `0x`/`0X` prefix switches to radix 16, and the longest run of
      digits that follows is the value; no digit at all gives NaN. The
      negative zero of `parseInt("-0")` is plain zero here. */
  function ParseInt(s: string): Number
  {
    var t := TrimStart(s);
    var negative := t != [] && t[0] == '-';
    var u := if t != [] && (t[0] == '-' || t[0] == '+') then t[1..] else t;
    match UnsignedValue(u)
    case None => NaN
    case Some(v) => if negative then Finite(-(v as real)) else Finite(v as real)
  }

  /** `u` starts with the `0x` or `0X` prefix of a hexadecimal literal. */
  predicate HasHexPrefix(u: string) {
    |u| >= 2 && u[0] == '0' && (u[1] == 'x' || u[1] == 'X')
  }

  /** The value of the digits `parseInt` reads once the sign is gone, or
      `None` when there are none. */
  function UnsignedValue(u: string): Option<nat>
  {
    var radix := if HasHexPrefix(u) then 16 else 10;
    var digits := LeadingDigits(if HasHexPrefix(u) then u[2..] else u, radix);
    if digits == [] then None else Some(RadixValue(digits, radix))
  }

  /** The decimal digits of `n`, as `n.toString()` writes them. */
  function NatToString(n: nat): (s: string)
    ensures |s| >= 1 && AllDigits(s)
    ensures n < 10 <==> |s| == 1
  {
    if n < 10 then [DigitChar(n)] else NatToString(n / 10) + [DigitChar(n % 10)]
  }

  /** The value of the digits after a decimal point: `0.d1d2...`. */
  function FractionValue(f: string): (v: real)
    ensures v >= 0.0
  {
    if f == [] then 0.0 else (DigitValue(f[0]) as real + FractionValue(f[1..])) / 10.0
  }

  /** `parseFloat(s)` for the strings it is given here: an unsigned decimal
      literal without exponent, that is the longest prefix of the shape
      digits, optionally a point and more digits, with at least one digit.
      White space, signs, exponents and `Infinity` are not modelled; the
      only caller passes a run of digits and points that starts with a
      digit. */
  function ParseFloat(s: string): (n: Number)
    ensures |s| > 0 && IsDigit(s[0]) ==> n.Finite?
    ensures n.Finite? ==> n.value >= 0.0
  {
    var whole := LeadingDigits(s, 10);
    var rest := s[|whole|..];
    var fraction := if rest != [] && rest[0] == '.' then LeadingDigits(rest[1..], 10) else [];
    if whole == [] && fraction == [] then NaN
    else Finite(RadixValue(whole, 10) as real + FractionValue(fraction))
  }

  /** `s.replace(",", "")`: a string pattern replaces only its FIRST
      occurrence. */
  function RemoveFirstComma(s: string): string
  {
    if s == [] then []
    else if s[0] == ',' then s[1..]
    else [s[0]] + RemoveFirstComma(s[1..])
  }

  /** `s.slice(1)`: everything but the first character (empty stays empty). */
  function DropFirst(s: string): (r: string)
    ensures s != [] ==> [s[0]] + r == s
    ensures s == [] ==> r == []
  {
    if s == [] then [] else s[1..]
  }

  /** `s.startsWith(p)`. */
  predicate StartsWith(s: string, p: string) { p <= s }

  // ---- properties ---------------------------------------------------------

  /** The value of a digit string does not depend on the characters after
      it: a decimal string followed by a non-digit is read back as its own
      value. */
  lemma {:induction false} LeadingDigitsOfDigits(d: string, tail: string)
    requires AllDigits(d)
    requires tail == [] || !IsDigit(tail[0])
    ensures LeadingDigits(d + tail, 10) == d
  {
    if d != [] {
      assert (d + tail)[0] == d[0];
      assert (d + tail)[1..] == d[1..] + tail;
      LeadingDigitsOfDigits(d[1..], tail);
    } else {
      assert d + tail == tail;
    }
  }

  /** Printing a natural number in decimal and reading the digits back gives
      the number again. */
  lemma {:induction false} RadixValueOfNatToString(n: nat)
    ensures RadixValue(NatToString(n), 10) == n
  {
    var s := NatToString(n);
    if n >= 10 {
      RadixValueOfNatToString(n / 10);
      assert s[..|s| - 1] == NatToString(n / 10);
    }
  }

  /** `parseInt` reads back the decimal text of a natural number, whatever
      follows it, as long as the next character is not a digit and does not
      turn a leading `0` into a `0x` prefix. */
  lemma ParseIntOfNatToString(n: nat, tail: string)
    requires tail == [] || !IsDigit(tail[0])
    requires n == 0 && tail != [] ==> tail[0] != 'x' && tail[0] != 'X'
    ensures ParseInt(NatToString(n) + tail) == Finite(n as real)
  {
    var d := NatToString(n);
    var s := d + tail;
    assert s[0] == d[0];
    ParseIntOfUnsigned(s);
    NatToStringIsNotHex(n, tail);
    LeadingDigitsOfDigits(d, tail);
    RadixValueOfNatToString(n);
  }

  /** Text that starts with a digit has no white space or sign to skip. */
  lemma ParseIntOfUnsigned(s: string)
    requires s != [] && IsDigit(s[0])
    ensures UnsignedValue(s).None? ==> ParseInt(s) == NaN
    ensures UnsignedValue(s).Some? ==> ParseInt(s) == Finite(UnsignedValue(s).value as real)
  {
    assert !IsJsWhiteSpace(s[0]);
    assert TrimStart(s) == s;
    assert s[0] != '-' && s[0] != '+';
  }

  lemma NatToStringIsNotHex(n: nat, tail: string)
    requires n == 0 && tail != [] ==> tail[0] != 'x' && tail[0] != 'X'
    ensures !HasHexPrefix(NatToString(n) + tail)
  {
    var d := NatToString(n);
    var s := d + tail;
    if |d| >= 2 {
      LeadingDigitNonZero(n);
      assert s[0] == d[0];
    } else if tail != [] {
      assert s[1] == tail[0];
    }
  }

  /** Only zero is written with a leading `0`. */
  lemma {:induction false} LeadingDigitNonZero(n: nat)
    requires n >= 10
    ensures NatToString(n)[0] != '0'
  {
    if n / 10 >= 10 {
      LeadingDigitNonZero(n / 10);
    }
  }

  /** `replace(",", "")` removes exactly the first comma and keeps everything
      after it, later commas included. */
  lemma {:induction false} RemoveFirstCommaSplit(x: string, y: string)
    requires ',' !in x
    ensures RemoveFirstComma(x + "," + y) == x + y
  {
    var w := x + "," + y;
    if x == [] {
      assert w == [','] + y;
      assert w[1..] == y;
    } else {
      assert w[0] == x[0] && w[0] != ',';
      assert w[1..] == x[1..] + "," + y;
      RemoveFirstCommaSplit(x[1..], y);
      assert [x[0]] + (x[1..] + y) == x + y;
    }
  }

  /** The status test of the fetch loop, `status.toString().startsWith("2")`,
      is exactly the 2xx class for every three-digit status code. */
  lemma StatusStartsWithTwo(status: nat)
    requires 100 <= status <= 999
    ensures StartsWith(NatToString(status), "2") <==> 200 <= status <= 299
  {
    var s := NatToString(status);
    assert NatToString(status / 10) == NatToString(status / 100) + [DigitChar(status / 10 % 10)];
    assert s[0] == DigitChar(status / 100);
    assert DigitValue(s[0]) == status / 100;
  }
}
