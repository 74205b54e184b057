/**
 * The two string-to-number conversions the registration form relies on:
 * `Number(string)` (used by `isNaN` and by `<` on a string) and
 * `parseInt(string)` with no radix, following the StringNumericLiteral
 * grammar and the parseInt algorithm of ECMAScript 2023 (sections 7.1.4.1
 * and 19.2.5). Values are exact rationals: the rounding of the result to a
 * double is not modelled.
 */
module JsNumber {
  import opened Wrappers
  import opened Strings

  /** A JavaScript number as far as the comparisons made here can tell. */
  datatype Number = NaN | PosInfinity | NegInfinity | Finite(value: real)

  /** `n < x` for a finite constant `x`: false for NaN and +Infinity, true for -Infinity. */
  predicate LessThan(n: Number, x: real)
  {
    match n
    case NaN => false
    case PosInfinity => false
    case NegInfinity => true
    case Finite(v) => v < x
  }

  /** A digit of radix 2, 8, 10 or 16 (letters in either case). */
  predicate IsRadixDigit(c: char, radix: nat)
  {
    RadixDigitValue(c) < radix
  }

  /** The value of a digit character, 36 for anything that is not a digit or a letter a-f. */
  function RadixDigitValue(c: char): (v: nat)
    ensures IsDigit(c) ==> v == DigitValue(c)
  {
    if IsDigit(c) then DigitValue(c)
    else if 'a' <= c <= 'f' then (c as int) - ('a' as int) + 10
    else if 'A' <= c <= 'F' then (c as int) - ('A' as int) + 10
    else 36
  }

  predicate AllRadixDigits(s: string, radix: nat)
  {
    forall k :: 0 <= k < |s| ==> IsRadixDigit(s[k], radix)
  }

  /** The value of a string of digits in the given radix, most significant first. */
  function DigitsValue(s: string, radix: nat): nat
    requires AllRadixDigits(s, radix)
  {
    if s == [] then 0 else DigitsValue(s[..|s| - 1], radix) * radix + RadixDigitValue(s[|s| - 1])
  }

  /** The length of the longest prefix of `s` made of radix digits. */
  function DigitPrefix(s: string, radix: nat): (n: nat)
    ensures n <= |s| && AllRadixDigits(s[..n], radix)
    ensures n < |s| ==> !IsRadixDigit(s[n], radix)
  {
    if s == [] || !IsRadixDigit(s[0], radix) then 0 else 1 + DigitPrefix(s[1..], radix)
  }

  /** The value `0.d1 d2 ...` of the decimal digits after a point. */
  function FractionValue(s: string): (r: real)
    requires AllRadixDigits(s, 10)
    ensures 0.0 <= r < 1.0
  {
    if s == [] then 0.0 else (RadixDigitValue(s[0]) as real + FractionValue(s[1..])) / 10.0
  }

  function Pow10(n: nat): (r: nat)
    ensures r >= 1
  {
    if n == 0 then 1 else 10 * Pow10(n - 1)
  }

  /** `m * 10^e` for an integer exponent. */
  function Scale(m: real, e: int): real
  {
    if e >= 0 then m * (Pow10(e) as real) else m / (Pow10(-e) as real)
  }

  /** ExponentPart: `e` or `E`, an optional sign, and at least one digit, ending the string. */
  function ParseExponent(s: string): Option<int>
  {
    if |s| >= 2 && (s[0] == 'e' || s[0] == 'E') then
      var sign := if s[1] == '-' then -1 else 1;
      var digits := if s[1] == '+' || s[1] == '-' then s[2..] else s[1..];
      if digits != [] && AllRadixDigits(digits, 10) then Some(sign * DigitsValue(digits, 10)) else None
    else None
  }

  /**
   * StrUnsignedDecimalLiteral: digits with an optional `.` and fraction, or a
   * `.` and a fraction, with an optional exponent; at least one digit in all.
   */
  function ParseUnsignedDecimal(s: string): Option<real>
  {
    var i := DigitPrefix(s, 10);
    var intDigits, rest := s[..i], s[i..];
    var hasPoint := rest != [] && rest[0] == '.';
    var afterPoint := if hasPoint then rest[1..] else rest;
    var j := if hasPoint then DigitPrefix(afterPoint, 10) else 0;
    var fracDigits, tail := afterPoint[..j], afterPoint[j..];
    if intDigits == [] && fracDigits == [] then None
    else
      var mantissa := DigitsValue(intDigits, 10) as real + FractionValue(fracDigits);
      if tail == [] then Some(mantissa)
      else
        match ParseExponent(tail)
        case Some(e) => Some(Scale(mantissa, e))
        case None => None
  }

  /** The radix a `0x`/`0o`/`0b` prefix selects, if the string starts with one. */
  function RadixPrefix(t: string): Option<nat>
  {
    if |t| >= 2 && t[0] == '0' then
      if t[1] == 'x' || t[1] == 'X' then Some(16)
      else if t[1] == 'o' || t[1] == 'O' then Some(8)
      else if t[1] == 'b' || t[1] == 'B' then Some(2)
      else None
    else None
  }

  /** `Number(s)` for a string `s`: surrounding whitespace is ignored. */
  function ToNumber(s: string): Number
  {
    LiteralValue(Trim(s))
  }

  /** The value of a StringNumericLiteral already stripped of surrounding whitespace. */
  function LiteralValue(t: string): Number
  {
    if t == [] then Finite(0.0)
    else if RadixPrefix(t).Some? then
      var digits := t[2..];
      if digits != [] && AllRadixDigits(digits, RadixPrefix(t).value) then Finite(DigitsValue(digits, RadixPrefix(t).value) as real)
      else NaN
    else
      var negative := t[0] == '-';
      var body := if t[0] == '+' || t[0] == '-' then t[1..] else t;
      if body == "Infinity" then (if negative then NegInfinity else PosInfinity)
      else match ParseUnsignedDecimal(body)
        case Some(v) => Finite(if negative then -v else v)
        case None => NaN
  }

  /** `parseInt(s)`: `None` is NaN. Only a `0x`/`0X` prefix changes the radix. */
  function ParseInt(s: string): Option<int>
  {
    ParseIntFrom(TrimStart(s))
  }

  /** `parseInt` on text whose leading whitespace is already gone. */
  function ParseIntFrom(t: string): Option<int>
  {
    var negative := t != [] && t[0] == '-';
    var unsigned := if t != [] && (t[0] == '+' || t[0] == '-') then t[1..] else t;
    var hex := |unsigned| >= 2 && unsigned[0] == '0' && (unsigned[1] == 'x' || unsigned[1] == 'X');
    var radix := if hex then 16 else 10;
    var body := if hex then unsigned[2..] else unsigned;
    var n := DigitPrefix(body, radix);
    if n == 0 then None
    else
      var v: int := DigitsValue(body[..n], radix);
      Some(if negative then -v else v)
  }
}
