/**
 * Python 2's `float(text)` on a byte string, as the record parser uses it on
 * a metric token.  After surrounding whitespace is stripped the text is an
 * optional sign followed either by `inf`, `infinity` or `nan` in any case, or
 * by a decimal literal: digits with an optional fraction (or a fraction
 * alone) and an optional exponent `e`/`E` with an optional sign and digits.
 * Anything else raises ValueError, modelled as `None`.  A finite value is kept
 * as the exact rational the literal denotes (see README on rounding).
 */
module PyFloat {
  import opened Wrappers
  import opened PyStr
  import opened PyInt

  datatype Float = Finite(value: real) | Infinity(negative: bool) | NaN

  /** -1 for negative infinity, 0 for a finite value, 1 for positive infinity. */
  function Tier(x: Float): int
    requires !x.NaN?
  {
    match x
    case Infinity(negative) => if negative then -1 else 1
    case Finite(_) => 0
  }

  /** Python's `x < y` on floats: false whenever either side is NaN. */
  predicate Less(x: Float, y: Float)
  {
    !x.NaN? && !y.NaN? &&
    (Tier(x) < Tier(y) || (x.Finite? && y.Finite? && x.value < y.value))
  }

  /**
   * Without NaN, `<` is a strict total order: exactly one of `x < y`,
   * `x == y`, `y < x` holds.  With NaN on either side `Less` is false.
   */
  lemma LessTotal(x: Float, y: Float)
    requires !x.NaN? && !y.NaN?
    ensures Less(x, y) || x == y || Less(y, x)
    ensures !(Less(x, y) && Less(y, x)) && !Less(x, x)
  {
  }

  function Pow10(e: nat): (r: nat)
    ensures r >= 1
  {
    if e == 0 then 1 else 10 * Pow10(e - 1)
  }

  /** `x * 10 ** e` for an exponent of either sign. */
  function Scale(x: real, e: int): real
  {
    if e >= 0 then x * Pow10(e) as real else x / Pow10(-e) as real
  }

  /** Length of the leading run of decimal digits. */
  function DigitRun(s: string): (n: nat)
    ensures n <= |s| && AllDigits(s[..n])
    ensures n < |s| ==> !IsDigit(s[n])
  {
    if s == [] || !IsDigit(s[0]) then 0
    else
      var n := 1 + DigitRun(s[1..]);
      assert s[..n] == [s[0]] + s[1..][..n - 1];
      n
  }

  /** The value of the digits `a` before and `b` after a decimal point. */
  function DecimalValue(a: string, b: string): real
    requires AllDigits(a) && AllDigits(b)
  {
    DigitsValue(a) as real + DigitsValue(b) as real / Pow10(|b|) as real
  }

  /** An exponent after its `e`: an optional sign, then one or more digits. */
  function ParseExponent(s: string): (r: Option<int>)
  {
    var digits := if |s| > 0 && (s[0] == '-' || s[0] == '+') then s[1..] else s;
    if |digits| > 0 && AllDigits(digits) then
      var magnitude: int := DigitsValue(digits);
      Some(if |s| > 0 && s[0] == '-' then -magnitude else magnitude)
    else None
  }

  /** An unsigned decimal literal: `digits[.digits]` or `.digits`, then an optional exponent. */
  function ParseDecimal(t: string): (r: Option<real>)
    ensures r.Some? ==> exists i :: 0 <= i < |t| && IsDigit(t[i])
    ensures r.Some? ==> IsDigit(t[0]) || t[0] == '.'
  {
    var a := DigitRun(t);
    var r := AfterInteger(t[..a], t[a..]);
    assert r.Some? && a == 0 ==> t[a..][1..][0] == t[1];
    r
  }

  /** The literal after its integer digits `a`: an optional point and fraction digits. */
  function AfterInteger(a: string, rest: string): (r: Option<real>)
    requires AllDigits(a)
    ensures r.Some? && a == [] ==> |rest| > 1 && rest[0] == '.' && IsDigit(rest[1])
  {
    if |rest| > 0 && rest[0] == '.' then
      var fraction := rest[1..];
      var b := DigitRun(fraction);
      AfterFraction(a, fraction[..b], fraction[b..])
    else AfterFraction(a, [], rest)
  }

  /** The literal after its digits `a` and fraction digits `b`: nothing, or an exponent. */
  function AfterFraction(a: string, b: string, tail: string): (r: Option<real>)
    requires AllDigits(a) && AllDigits(b)
    ensures r.Some? ==> |a| + |b| > 0
  {
    if |a| + |b| == 0 then None
    else if tail == [] then Some(DecimalValue(a, b))
    else if tail[0] == 'e' || tail[0] == 'E' then
      match ParseExponent(tail[1..])
      case None => None
      case Some(e) => Some(Scale(DecimalValue(a, b), e))
    else None
  }

  /**
   * `float(text)`: whitespace, sign, then an infinity, a NaN or a decimal
   * literal; `None` where Python raises ValueError.
   */
  function ParseFloat(text: string): Option<Float>
  {
    ParseSigned(Strip(text))
  }

  /** Stripped text: an optional sign and an unsigned float. */
  function ParseSigned(t: string): Option<Float>
  {
    match ParseUnsigned(Unsigned(t))
    case None => None
    case Some(f) => Some(if |t| > 0 && t[0] == '-' then Negate(f) else f)
  }

  /** An unsigned float: `inf`, `infinity` or `nan` in any case, or a decimal literal. */
  function ParseUnsigned(body: string): Option<Float>
  {
    if SameWord(body, "inf") || SameWord(body, "infinity") then Some(Infinity(false))
    else if SameWord(body, "nan") then Some(NaN)
    else match ParseDecimal(body)
      case None => None
      case Some(x) => Some(Finite(x))
  }

  /** Unary minus; the sign of a NaN is not observable here. */
  function Negate(f: Float): Float
  {
    match f
    case Finite(x) => Finite(-x)
    case Infinity(negative) => Infinity(!negative)
    case NaN => NaN
  }

  /** The text after an optional leading sign. */
  function Unsigned(t: string): string
  {
    if |t| > 0 && (t[0] == '-' || t[0] == '+') then t[1..] else t
  }

  /** `s.lower() == w` for a lower-case word `w`. */
  predicate SameWord(s: string, w: string)
  {
    |s| == |w| && forall i :: 0 <= i < |s| ==> LowerChar(s[i]) == w[i]
  }

  /** One of the words `float()` reads as an infinity or a NaN, in any case. */
  predicate SpecialWord(s: string)
  {
    SameWord(s, "inf") || SameWord(s, "infinity") || SameWord(s, "nan")
  }

  /** Whatever `int()` reads, `float()` reads too, as the same number. */
  lemma {:induction false} IntSyntaxIsFloatSyntax(text: string)
    requires ParseInt(text).Some?
    ensures ParseFloat(text) == Some(Finite(ParseInt(text).value as real))
  {
    var t := Strip(text);
    var body := Unsigned(t);
    var v := DigitsValue(body) as real;
    assert |body| > 0 && AllDigits(body);
    assert ParseDecimal(body) == Some(v) by {
      IntegerPart(body, []);
      assert body + [] == body;
      assert DecimalValue(body, []) == v;
    }
    DecimalIsUnsigned(body, v);
    SignedBody(t, body, Finite(v));
  }

  lemma AllDigitsRun(s: string)
    requires AllDigits(s)
    ensures DigitRun(s) == |s|
  {
  }

  /** Digits followed by a non-digit: the run stops there, whatever follows. */
  lemma {:induction false} DigitRunStops(a: string, rest: string)
    requires AllDigits(a)
    requires rest == [] || !IsDigit(rest[0])
    ensures DigitRun(a + rest) == |a|
  {
    if a != [] {
      assert (a + rest)[1..] == a[1..] + rest;
      DigitRunStops(a[1..], rest);
    } else {
      assert a + rest == rest;
    }
  }

  /**
   * The literal `a.b` followed by an exponent `e` + `str(k)` reads as the
   * decimal value of `a.b` scaled by ten to the `k`: the parse puts the
   * digits on each side of the point and the exponent in their places.
   */
  lemma {:induction false} DecimalLiteral(a: string, b: string, k: int)
    requires AllDigits(a) && AllDigits(b) && |a| + |b| > 0
    ensures ParseDecimal(a + "." + b + "e" + IntToString(k)) == Some(Scale(DecimalValue(a, b), k))
  {
    var e := IntToString(k);
    var tail := "e" + e;
    var rest := "." + b + tail;
    assert a + "." + b + "e" + e == a + rest;
    calc {
      ParseDecimal(a + rest);
      { IntegerPart(a, rest); }
      AfterInteger(a, rest);
      { FractionPart(a, b, tail); }
      AfterFraction(a, b, tail);
      { assert tail[1..] == e; ExponentOfIntToString(k); }
      Some(Scale(DecimalValue(a, b), k));
    }
  }

  /** Integer digits followed by a non-digit are the literal's integer part. */
  lemma IntegerPart(a: string, rest: string)
    requires AllDigits(a)
    requires rest == [] || !IsDigit(rest[0])
    ensures ParseDecimal(a + rest) == AfterInteger(a, rest)
  {
    DigitRunStops(a, rest);
    assert (a + rest)[..|a|] == a && (a + rest)[|a|..] == rest;
  }

  /** A point, fraction digits, then a non-digit: `b` is the literal's fraction part. */
  lemma FractionPart(a: string, b: string, tail: string)
    requires AllDigits(a) && AllDigits(b)
    requires tail == [] || !IsDigit(tail[0])
    ensures AfterInteger(a, "." + b + tail) == AfterFraction(a, b, tail)
  {
    var rest := "." + b + tail;
    assert rest[1..] == b + tail;
    DigitRunStops(b, tail);
    assert (b + tail)[..|b|] == b && (b + tail)[|b|..] == tail;
  }

  /** An exponent written by `str(k)` reads back as `k`. */
  lemma ExponentOfIntToString(k: int)
    ensures ParseExponent(IntToString(k)) == Some(k)
  {
    var s := IntToString(k);
    if k < 0 {
      assert s[1..] == NatToString(-k);
    }
  }

  /**
   * A sign in front of a decimal literal negates it or leaves it as it is
   * (`float()` reads stripped text through `ParseSigned`).
   */
  lemma {:induction false} SignedDecimal(sign: char, t: string, x: real)
    requires sign == '-' || sign == '+'
    requires ParseDecimal(t) == Some(x)
    ensures ParseSigned([sign] + t) == Some(if sign == '-' then Negate(Finite(x)) else Finite(x))
  {
    var text := [sign] + t;
    assert text[1..] == t;
    DecimalIsUnsigned(t, x);
    SignedBody(text, t, Finite(x));
  }

  /** A decimal literal alone, as `split()` gives it, reads as its value. */
  lemma {:induction false} UnsignedDecimalToken(t: string, x: real)
    requires Word(t) && ParseDecimal(t) == Some(x)
    ensures ParseFloat(t) == Some(Finite(x))
  {
    calc {
      ParseFloat(t);
      { TokenIsStripped(t); }
      ParseSigned(t);
      { UnsignedDecimal(t); DecimalIsUnsigned(t, x); SignedBody(t, t, Finite(x)); }
      Some(Finite(x));
    }
  }

  /** A decimal literal is an unsigned float with its value. */
  lemma DecimalIsUnsigned(t: string, x: real)
    requires ParseDecimal(t) == Some(x)
    ensures ParseUnsigned(t) == Some(Finite(x))
  {
    NotSpecial(t);
  }

  /** The sign of stripped text applied to the value of its unsigned body. */
  lemma SignedBody(text: string, t: string, f: Float)
    requires |text| > 0 && Unsigned(text) == t && ParseUnsigned(t) == Some(f)
    ensures ParseSigned(text) == Some(if text[0] == '-' then Negate(f) else f)
  {
  }

  /** A token is already stripped, so `float()` reads its sign and body directly. */
  lemma TokenIsStripped(w: string)
    requires Word(w)
    ensures ParseFloat(w) == ParseSigned(w)
  {
    StripDecimal(w);
  }

  /** A decimal literal starts with a digit or a point, so it has no sign to drop. */
  lemma UnsignedDecimal(t: string)
    requires ParseDecimal(t).Some?
    ensures Unsigned(t) == t
  {
    assert !(|t| > 0 && (t[0] == '-' || t[0] == '+'));
  }

  /** A token without whitespace is its own `strip()`. */
  lemma StripDecimal(t: string)
    requires Word(t)
    ensures Strip(t) == t
  {
    assert SkipSpaces(t) == t;
  }

  /** Text holding a digit is not one of the special words. */
  lemma NotSpecial(t: string)
    requires exists i :: 0 <= i < |t| && IsDigit(t[i])
    ensures !SpecialWord(t)
  {
    var i :| 0 <= i < |t| && IsDigit(t[i]);
    assert LowerChar(t[i]) == t[i];
  }
}
