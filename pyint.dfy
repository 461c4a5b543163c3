/**
 * Python's `int(text)` and `str(i)` on integers.  The representative
 * side file is written with `str()` and read back with `int()`; metric
 * values are read with `float()`, which PyFloat models.
 */
module PyInt {
  import opened Wrappers
  import opened PyStr

  predicate IsDigit(c: char) { '0' <= c <= '9' }

  predicate AllDigits(s: string)
  {
    forall i :: 0 <= i < |s| ==> IsDigit(s[i])
  }

  function DigitsValue(s: string): nat
    requires AllDigits(s)
  {
    if s == [] then 0 else 10 * DigitsValue(s[..|s| - 1]) + (s[|s| - 1] as int - '0' as int)
  }

  function DigitChar(d: nat): (c: char)
    requires d < 10
    ensures IsDigit(c) && c as int - '0' as int == d
  {
    ('0' as int + d) as char
  }

  /** `int(text)`: surrounding whitespace, an optional sign, then one or more decimal digits. */
  function ParseInt(text: string): (r: Option<int>)
    ensures r.Some? ==> exists i :: 0 <= i < |text| && IsDigit(text[i])
  {
    var t := Strip(text);
    var negative := |t| > 0 && t[0] == '-';
    var digits := if |t| > 0 && (t[0] == '-' || t[0] == '+') then t[1..] else t;
    if |digits| > 0 && AllDigits(digits) then
      ghost var k := |text| - |SkipSpaces(text)| + |t| - |digits|;
      assert text[k] == digits[0];
      var magnitude: int := DigitsValue(digits);
      Some(if negative then -magnitude else magnitude)
    else
      None
  }

  /** `str(n)` for a natural number: decimal digits, no leading zero. */
  function NatToString(n: nat): (s: string)
    ensures |s| > 0 && AllDigits(s) && DigitsValue(s) == n
    ensures s[0] == '0' ==> n == 0
  {
    if n < 10 then [DigitChar(n)]
    else
      var prefix := NatToString(n / 10);
      var s := prefix + [DigitChar(n % 10)];
      assert s[..|s| - 1] == prefix;
      s
  }

  /** `str(i)` */
  function IntToString(i: int): (s: string)
    ensures |s| > 0 && !IsSpace(s[0]) && !IsSpace(s[|s| - 1])
  {
    if i < 0 then "-" + NatToString(-i) else NatToString(i)
  }

  /** Writing an integer with `str` and reading it back with `int` gives the integer back. */
  lemma {:induction false} ParseIntOfIntToString(i: int)
    ensures ParseInt(IntToString(i)) == Some(i)
  {
    var s := IntToString(i);
    assert SkipSpaces(s) == s;
    assert StripEnd(s) == s;
    assert Strip(s) == s;
    if i < 0 {
      assert s[1..] == NatToString(-i);
    }
  }
}
