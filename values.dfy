/** Scalar value coercion: `parseValue` (index.js:122-128). */
module Values {
  import opened Wrappers
  import opened Text
  import opened JsNumber

  /** A JavaScript primitive as the YAML parser stores it. */
  datatype Scalar = Null | Bool(b: bool) | Num(n: Number) | Str(s: string) | Undefined

  /** What `parseValue` returns: a fresh empty object `{}`, or a primitive. */
  datatype Coerced = EmptyObject | Atom(v: Scalar)

  /** `isNaN(value)` for an argument that is a string or `undefined` (None):
      ToNumber(undefined) is NaN, and a string is NaN when `Number` rejects it. */
  function ArgIsNaN(value: Option<string>): (b: bool)
    ensures value.None? ==> b
  {
    match value
    case None => true
    case Some(s) => IsNaN(s)
  }

  /** The argument itself as a primitive. */
  function ArgScalar(value: Option<string>): (v: Scalar)
    ensures v.Str? <==> value.Some?
  {
    match value
    case None => Undefined
    case Some(s) => Str(s)
  }

  /** `parseValue(value)` for an argument that is a string or `undefined`
      (None, what destructuring `split(":")` gives when there is no second
      field): the `===` tests against the string literals, then `isNaN`, then
      the argument itself. */
  function ParseOptionalValue(value: Option<string>): (c: Coerced)
    ensures c == EmptyObject <==> value == Some("")
    ensures c.Atom? && c.v.Str? ==> value == Some(c.v.s)
    ensures c.Atom? && c.v.Undefined? ==> value == None
  {
    if value == Some("") then EmptyObject
    else if value == Some("null") || value == Some("~") then Atom(Null)
    else if value == Some("true") || value == Some("false") then Atom(Bool(value == Some("true")))
    else if !ArgIsNaN(value) then Atom(Num(StringToNumber(value.value)))
    else Atom(ArgScalar(value))
  }

  /** `parseValue(value)` for a string argument. */
  function ParseValue(value: string): (c: Coerced)
    ensures c == EmptyObject <==> value == ""
    ensures c.Atom? && c.v.Num? ==> c.v.n != NaN
    ensures c.Atom? && c.v.Str? ==> c.v.s == value
    ensures c.Atom? ==> !c.v.Undefined?
  {
    ParseOptionalValue(Some(value))
  }

  /** `parseValue(undefined)` is `undefined`: no `===` test matches it, and
      `isNaN(undefined)` holds, so the argument itself comes back. */
  lemma UndefinedValue()
    ensures ParseOptionalValue(None) == Atom(Undefined)
  {
  }

  /** On a string the general chain is `ParseValue`, and every string
      argument gives a defined result. */
  lemma StringArgument(s: string)
    ensures ParseOptionalValue(Some(s)) == ParseValue(s)
    ensures ParseOptionalValue(Some(s)) != Atom(Undefined)
  {
  }

  /** The keyword scalars: `{}` for the empty string, null for `null` and `~`,
      the booleans for `true` and `false`. */
  lemma KeywordValues()
    ensures ParseValue("") == EmptyObject
    ensures ParseValue("null") == Atom(Null) && ParseValue("~") == Atom(Null)
    ensures ParseValue("true") == Atom(Bool(true)) && ParseValue("false") == Atom(Bool(false))
  {
  }

  /** Decimal notation: an optional minus sign, digits, and an optional fraction. */
  function DecimalText(neg: bool, ip: string, fp: string): string {
    (if neg then "-" else "") + ip + (if fp == [] then "" else "." + fp)
  }

  /** The exact value decimal notation denotes. */
  function DecimalMeaning(neg: bool, ip: string, fp: string): real {
    var m := DigitsValue(ip, 10) as real + (DigitsValue(fp, 10) as real) / (Pow10(|fp|) as real);
    if neg then -m else m
  }

  lemma FirstIndexAbsent(s: string, cs: string)
    requires forall j :: 0 <= j < |s| ==> s[j] !in cs
    ensures FirstIndexOfAny(s, cs) == |s|
  {
  }

  lemma MantissaOfDigits(ip: string, fp: string)
    requires IsDigits(ip, 10) && (fp == [] || IsDigits(fp, 10))
    ensures Mantissa(ip + (if fp == [] then "" else "." + fp)) == Some(DecimalMeaning(false, ip, fp))
  {
    var u := ip + (if fp == [] then "" else "." + fp);
    var d := FirstIndexOfAny(u, ".");
    if fp == [] {
      assert u == ip;
      forall j | 0 <= j < |u| ensures u[j] !in "." {
        assert DigitValue(u[j]) < 10;
      }
      FirstIndexAbsent(u, ".");
      assert u[..d] == ip;
    } else {
      forall j | 0 <= j < |ip| ensures u[j] !in "." {
        assert u[j] == ip[j];
        assert DigitValue(ip[j]) < 10;
      }
      assert u[|ip|] == '.';
      assert d == |ip|;
      assert u[..d] == ip;
      assert u[d + 1..] == fp;
    }
  }

  lemma DigitsAvoidExponent(ip: string, fp: string)
    requires IsDigits(ip, 10) && (fp == [] || IsDigits(fp, 10))
    ensures var u := ip + (if fp == [] then "" else "." + fp);
      u != "Infinity" && forall j :: 0 <= j < |u| ==> u[j] !in "eE"
  {
    var u := ip + (if fp == [] then "" else "." + fp);
    assert u != "Infinity" by {
      assert u[0] == ip[0];
      assert DigitValue(ip[0]) < 10;
    }
    forall j | 0 <= j < |u| ensures u[j] !in "eE" {
      if j < |ip| {
        assert u[j] == ip[j];
        assert DigitValue(ip[j]) < 10;
      } else if j > |ip| {
        assert u[j] == fp[j - |ip| - 1];
        assert DigitValue(fp[j - |ip| - 1]) < 10;
      }
    }
  }

  lemma UnsignedDecimalOfDigits(ip: string, fp: string)
    requires IsDigits(ip, 10) && (fp == [] || IsDigits(fp, 10))
    ensures UnsignedDecimal(ip + (if fp == [] then "" else "." + fp)) == Some(Finite(DecimalMeaning(false, ip, fp)))
  {
    var u := ip + (if fp == [] then "" else "." + fp);
    DigitsAvoidExponent(ip, fp);
    FirstIndexAbsent(u, "eE");
    MantissaOfDigits(ip, fp);
    UnsignedDecimalPlain(u, DecimalMeaning(false, ip, fp));
  }

  /** Text with neither `Infinity` nor an exponent is its mantissa. */
  lemma UnsignedDecimalPlain(u: string, m: real)
    requires u != "Infinity" && FirstIndexOfAny(u, "eE") == |u| && Mantissa(u) == Some(m)
    ensures UnsignedDecimal(u) == Some(Finite(m))
  {
    TakeAll(u);
    ScaleZero(m);
  }

  lemma TakeAll(u: string)
    ensures u[..|u|] == u
  {
  }

  lemma ScaleZero(m: real)
    ensures Scale(m, 0) == m
  {
    assert Pow10(0) == 1;
  }

  /** A trimmed, non-keyword string that is a numeric literal coerces to its number. */
  lemma ParseValueOfLiteral(s: string, n: Number)
    requires IsTrimmed(s) && s != [] && s != "null" && s != "~" && s != "true" && s != "false"
    requires NumericLiteral(s) == Some(n)
    ensures ParseValue(s) == Atom(Num(n))
  {
    TrimIdempotent(s);
  }

  lemma DecimalTextShape(neg: bool, ip: string, fp: string)
    requires IsDigits(ip, 10) && (fp == [] || IsDigits(fp, 10))
    ensures var s := DecimalText(neg, ip, fp);
      IsTrimmed(s) && s != [] && s != "null" && s != "~" && s != "true" && s != "false"
  {
    var u := ip + (if fp == [] then "" else "." + fp);
    var s := DecimalText(neg, ip, fp);
    assert s == (if neg then "-" else "") + u;
    assert IsDecimalDigit(u[0]) by {
      assert u[0] == ip[0];
    }
    assert IsDecimalDigit(s[|s| - 1]) by {
      if fp == [] {
        assert s[|s| - 1] == ip[|ip| - 1];
      } else {
        assert s[|s| - 1] == fp[|fp| - 1];
      }
    }
    assert s[0] == '-' || IsDecimalDigit(s[0]);
  }

  lemma UnsignedTextLiteral(ip: string, fp: string)
    requires IsDigits(ip, 10) && (fp == [] || IsDigits(fp, 10))
    ensures NumericLiteral(DecimalText(false, ip, fp)) == Some(Finite(DecimalMeaning(false, ip, fp)))
  {
    var u := ip + (if fp == [] then "" else "." + fp);
    assert DecimalText(false, ip, fp) == u;
    UnsignedDecimalOfDigits(ip, fp);
    DigitsNoPrefix(ip, fp);
    LiteralOfUnsigned(u, Finite(DecimalMeaning(false, ip, fp)));
  }

  lemma DigitsNoPrefix(ip: string, fp: string)
    requires IsDigits(ip, 10)
    ensures var u := ip + (if fp == [] then "" else "." + fp);
      u != [] && u[0] != '+' && u[0] != '-' && PrefixRadix(u) == 0
  {
    var u := ip + (if fp == [] then "" else "." + fp);
    assert DigitValue(u[0]) < 10 by {
      assert u[0] == ip[0];
    }
    assert PrefixRadix(u) == 0 by {
      if |u| >= 2 && |ip| >= 2 {
        assert u[1] == ip[1];
        assert DigitValue(ip[1]) < 10;
      }
    }
  }

  /** Unsigned text without a radix prefix reads as an unsigned decimal. */
  lemma LiteralOfUnsigned(u: string, n: Number)
    requires u != [] && u[0] != '+' && u[0] != '-' && PrefixRadix(u) == 0
    requires UnsignedDecimal(u) == Some(n)
    ensures NumericLiteral(u) == Some(n)
  {
  }

  lemma NegativeTextLiteral(ip: string, fp: string)
    requires IsDigits(ip, 10) && (fp == [] || IsDigits(fp, 10))
    ensures NumericLiteral(DecimalText(true, ip, fp)) == Some(Finite(DecimalMeaning(true, ip, fp)))
  {
    var u := ip + (if fp == [] then "" else "." + fp);
    var s := DecimalText(true, ip, fp);
    assert s == "-" + u;
    assert s[1..] == u;
    assert PrefixRadix(s) == 0;
    assert NumericLiteral(s) == DecimalLiteral(s);
    assert DecimalLiteral(s) == Some(Finite(DecimalMeaning(true, ip, fp))) by {
      assert s != [] && s[0] == '-';
      UnsignedDecimalOfDigits(ip, fp);
      assert Negate(Finite(DecimalMeaning(false, ip, fp))) == Finite(DecimalMeaning(true, ip, fp));
    }
  }

  lemma DecimalTextLiteral(neg: bool, ip: string, fp: string)
    requires IsDigits(ip, 10) && (fp == [] || IsDigits(fp, 10))
    ensures NumericLiteral(DecimalText(neg, ip, fp)) == Some(Finite(DecimalMeaning(neg, ip, fp)))
  {
    if neg {
      NegativeTextLiteral(ip, fp);
    } else {
      UnsignedTextLiteral(ip, fp);
    }
  }

  /** Decimal text (optional `-`, digits, optional `.digits`) coerces to the
      number it denotes. */
  lemma DecimalIsNumber(neg: bool, ip: string, fp: string)
    requires IsDigits(ip, 10) && (fp == [] || IsDigits(fp, 10))
    ensures ParseValue(DecimalText(neg, ip, fp)) == Atom(Num(Finite(DecimalMeaning(neg, ip, fp))))
  {
    DecimalTextShape(neg, ip, fp);
    DecimalTextLiteral(neg, ip, fp);
    ParseValueOfLiteral(DecimalText(neg, ip, fp), Finite(DecimalMeaning(neg, ip, fp)));
  }

  function DigitChar(d: nat): (c: char)
    requires d < 10
    ensures IsDecimalDigit(c) && DigitValue(c) == d
  {
    (('0' as int) + d) as char
  }

  /** The decimal rendering of a natural number, as `String(n)` gives it. */
  function NatToDecimal(n: nat): (s: string)
    ensures IsDigits(s, 10)
  {
    if n < 10 then [DigitChar(n)] else NatToDecimal(n / 10) + [DigitChar(n % 10)]
  }

  function IntToDecimal(n: int): string {
    if n < 0 then "-" + NatToDecimal(-n) else NatToDecimal(n)
  }

  lemma {:induction false} NatToDecimalValue(n: nat)
    ensures DigitsValue(NatToDecimal(n), 10) == n
  {
    var s := NatToDecimal(n);
    if n >= 10 {
      NatToDecimalValue(n / 10);
      assert s[..|s| - 1] == NatToDecimal(n / 10);
    } else {
      assert s[..|s| - 1] == [];
    }
  }

  /** Every integer written in decimal coerces back to that integer. */
  lemma IntegerRoundTrip(n: int)
    ensures ParseValue(IntToDecimal(n)) == Atom(Num(Finite(n as real)))
  {
    var m: nat := if n < 0 then -n else n;
    var digits := NatToDecimal(m);
    assert DecimalMeaning(n < 0, digits, []) == n as real by {
      NatToDecimalValue(m);
    }
    assert IntToDecimal(n) == DecimalText(n < 0, digits, []);
    DecimalIsNumber(n < 0, digits, []);
  }

  /** Text that `Number` rejects: not blank after trimming, and not a numeric
      literal once trimmed. */
  predicate NonNumeric(s: string) {
    Trim(s) != [] && NumericLiteral(Trim(s)).None?
  }

  /** Past the keyword tests, `parseValue` returns the very same string exactly
      when `Number` rejects it, and the number `Number` gives otherwise. */
  lemma NonKeywordValue(s: string)
    requires s != "" && s != "null" && s != "~" && s != "true" && s != "false"
    ensures ParseValue(s) == Atom(Str(s)) <==> NonNumeric(s)
    ensures !NonNumeric(s) ==> ParseValue(s) == Atom(Num(StringToNumber(s)))
  {
  }

  /** A character that can begin text Number() accepts (after trimming). */
  predicate MayStartNumber(c: char) {
    IsDecimalDigit(c) || c == '+' || c == '-' || c == '.' || c == 'I' || IsWhitespace(c)
  }

  lemma MantissaRejects(m: string)
    requires m != [] && !IsDecimalDigit(m[0]) && m[0] != '.'
    ensures Mantissa(m).None?
  {
    var d := FirstIndexOfAny(m, ".");
    assert d != 0;
    assert m[..d][0] == m[0];
    assert DigitValue(m[0]) >= 10;
  }

  lemma LiteralRejects(t: string)
    requires t != [] && !MayStartNumber(t[0])
    ensures NumericLiteral(t).None?
  {
    assert PrefixRadix(t) == 0;
    assert t != "Infinity";
    var e := FirstIndexOfAny(t, "eE");
    if e != 0 {
      assert t[..e][0] == t[0];
      MantissaRejects(t[..e]);
    }
  }

  lemma TrimKeepsStart(s: string)
    requires s != [] && !IsWhitespace(s[0])
    ensures Trim(s) != [] && Trim(s)[0] == s[0]
  {
    TrimStartOf([], s);
    assert [] + s == s;
    assert !AllWhitespace(s);
    TrimEmpty(s);
    TrimEndFacts(s);
  }

  /** Text that cannot begin a number and is not a keyword is kept as the very
      same string. */
  lemma TextStaysString(s: string)
    requires s != [] && !MayStartNumber(s[0])
    requires s != "null" && s != "~" && s != "true" && s != "false"
    ensures ParseValue(s) == Atom(Str(s))
  {
    TrimKeepsStart(s);
    LiteralRejects(Trim(s));
    NonKeywordValue(s);
  }

  /** Quotes are not stripped: quoted text stays a string with its quotes. */
  lemma QuotesKept(s: string)
    requires |s| >= 2 && (s[0] == '"' || s[0] == '\'')
    ensures ParseValue(s) == Atom(Str(s))
  {
    TextStaysString(s);
  }
}
