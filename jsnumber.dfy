/** ECMAScript `Number(string)` (StringToNumber, section 7.1.4.1.1 of ECMA-262),
    which `isNaN` and `Number` apply to a YAML value. The grammar is modelled in
    full: optional sign, decimal digits with an optional fraction and exponent,
    `Infinity`, and the `0x`/`0o`/`0b` integer forms (no sign, no numeric
    separators). Finite results are exact reals: rounding to IEEE-754 doubles,
    overflow to infinity and negative zero are not modelled. */
module JsNumber {
  import opened Wrappers
  import opened Text

  datatype Number = NaN | PosInfinity | NegInfinity | Finite(r: real)

  predicate IsDecimalDigit(c: char) {
    '0' <= c <= '9'
  }

  /** The value of a digit character in any radix up to 36 (36 for a non-digit). */
  function DigitValue(c: char): nat {
    if '0' <= c <= '9' then (c as int) - ('0' as int)
    else if 'a' <= c <= 'z' then (c as int) - ('a' as int) + 10
    else if 'A' <= c <= 'Z' then (c as int) - ('A' as int) + 10
    else 36
  }

  /** A non-empty run of digits of the given radix. */
  predicate IsDigits(s: string, radix: nat) {
    |s| > 0 && forall i :: 0 <= i < |s| ==> DigitValue(s[i]) < radix
  }

  /** The value of a digit string, most significant digit first. */
  function DigitsValue(s: string, radix: nat): nat {
    if s == [] then 0 else DigitsValue(s[..|s| - 1], radix) * radix + DigitValue(s[|s| - 1])
  }

  function Pow10(n: nat): (p: nat)
    ensures p >= 1
  {
    if n == 0 then 1 else 10 * Pow10(n - 1)
  }

  /** m * 10^e */
  function Scale(m: real, e: int): real {
    if e >= 0 then m * (Pow10(e) as real) else m / (Pow10(-e) as real)
  }

  /** The first index of a character of `cs` in `s`, or |s| when there is none. */
  function FirstIndexOfAny(s: string, cs: string): (i: nat)
    ensures i <= |s|
    ensures i < |s| ==> s[i] in cs
    ensures forall j :: 0 <= j < i ==> s[j] !in cs
  {
    if s == [] then 0
    else if s[0] in cs then 0
    else 1 + FirstIndexOfAny(s[1..], cs)
  }

  /** SignedInteger of an exponent part: optional sign, then decimal digits. */
  function SignedInteger(s: string): Option<int> {
    var neg := s != [] && s[0] == '-';
    var digits := if s != [] && (s[0] == '+' || s[0] == '-') then s[1..] else s;
    if IsDigits(digits, 10) then
      var v: int := DigitsValue(digits, 10);
      Some(if neg then -v else v)
    else None
  }

  /** The part before the exponent: `d`, `d.`, `d.d` or `.d`. */
  function Mantissa(m: string): Option<real> {
    var d := FirstIndexOfAny(m, ".");
    var ip := m[..d];
    if d == |m| then
      if IsDigits(ip, 10) then Some(DigitsValue(ip, 10) as real) else None
    else
      var fp := m[d + 1..];
      if (ip == [] || IsDigits(ip, 10)) && (fp == [] || IsDigits(fp, 10)) && (ip != [] || fp != []) then
        Some(DigitsValue(ip, 10) as real + (DigitsValue(fp, 10) as real) / (Pow10(|fp|) as real))
      else None
  }

  /** StrUnsignedDecimalLiteral. */
  function UnsignedDecimal(u: string): (r: Option<Number>)
    ensures r != Some(NaN)
  {
    if u == "Infinity" then Some(PosInfinity)
    else
      var e := FirstIndexOfAny(u, "eE");
      var exponent := if e < |u| then SignedInteger(u[e + 1..]) else Some(0);
      match (Mantissa(u[..e]), exponent)
      case (Some(m), Some(x)) => Some(Finite(Scale(m, x)))
      case _ => None
  }

  function Negate(n: Number): Number {
    match n
    case NaN => NaN
    case PosInfinity => NegInfinity
    case NegInfinity => PosInfinity
    case Finite(r) => Finite(-r)
  }

  /** StrDecimalLiteral: an optional sign before an unsigned literal. */
  function DecimalLiteral(t: string): (r: Option<Number>)
    ensures r != Some(NaN)
  {
    if t != [] && t[0] == '+' then UnsignedDecimal(t[1..])
    else if t != [] && t[0] == '-' then
      match UnsignedDecimal(t[1..])
      case None => None
      case Some(n) => Some(Negate(n))
    else UnsignedDecimal(t)
  }

  /** The radix a `0x`, `0o` or `0b` prefix announces, 0 for none. */
  function PrefixRadix(t: string): nat {
    if |t| < 2 || t[0] != '0' then 0
    else if t[1] == 'x' || t[1] == 'X' then 16
    else if t[1] == 'o' || t[1] == 'O' then 8
    else if t[1] == 'b' || t[1] == 'B' then 2
    else 0
  }

  /** StrNumericLiteral. */
  function NumericLiteral(t: string): (r: Option<Number>)
    ensures r != Some(NaN)
  {
    var radix := PrefixRadix(t);
    if radix != 0 then
      if IsDigits(t[2..], radix) then Some(Finite(DigitsValue(t[2..], radix) as real)) else None
    else DecimalLiteral(t)
  }

  /** `Number(s)`: whitespace around the literal is ignored, the empty (or
      all-whitespace) string is 0, and anything outside the grammar is NaN. */
  function StringToNumber(s: string): (n: Number)
    ensures n == NaN <==> Trim(s) != [] && NumericLiteral(Trim(s)).None?
  {
    var t := Trim(s);
    if t == [] then Finite(0.0)
    else match NumericLiteral(t)
      case Some(n) => n
      case None => NaN
  }

  /** `isNaN(s)` for a string argument. */
  predicate IsNaN(s: string) {
    StringToNumber(s) == NaN
  }
}
