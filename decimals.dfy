/**
 * Python's `decimal.Decimal` as far as the migration uses it: reading plain decimal
 * literals (`"25.99"`, `"-5"`, `".5"`, `"7."`) and writing whole numbers in decimal.
 * A decimal is an integer coefficient with a number of fraction digits, so that
 * `Decimal(2599, 2)` is 25.99 and keeps its trailing zeros, as Python's does.
 */
module Decimals {

  import opened Options
  import opened Text

  datatype Decimal = Decimal(coefficient: int, scale: nat)

  /** `Decimal("0.00")`, the price used when none can be read. */
  const Zero: Decimal := Decimal(0, 2)

  function DigitValue(c: char): (d: nat)
    requires IsDigit(c)
    ensures d < 10
  {
    c as int - '0' as int
  }

  function DigitChar(d: nat): (c: char)
    requires d < 10
    ensures IsDigit(c) && DigitValue(c) == d
  {
    ('0' as int + d) as char
  }

  /** The number a string of decimal digits denotes (0 for the empty string). */
  function DigitsValue(s: string): nat
    requires AllDigits(s)
  {
    if s == [] then 0 else DigitsValue(s[..|s| - 1]) * 10 + DigitValue(s[|s| - 1])
  }

  /** The decimal digits of `n`, without leading zeros (Python's `str(n)`). */
  function NatToDigits(n: nat): (r: string)
    ensures r != [] && AllDigits(r)
    ensures DigitsValue(r) == n
    ensures |r| > 1 ==> r[0] != '0'
  {
    if n < 10 then [DigitChar(n)]
    else
      var r := NatToDigits(n / 10) + [DigitChar(n % 10)];
      assert r[..|r| - 1] == NatToDigits(n / 10);
      r
  }

  /** `s` left-padded with zeros to at least `width` characters (Python's `{:0<width>d}`). */
  function ZeroPad(s: string, width: nat): (r: string)
    ensures |r| == if |s| < width then width else |s|
    ensures r[|r| - |s|..] == s
    ensures forall i | 0 <= i < |r| - |s| :: r[i] == '0'
  {
    if |s| < width then seq(width - |s|, i => '0') + s else s
  }

  lemma {:induction false} LeadingZeros(z: string, s: string)
    requires forall i | 0 <= i < |z| :: z[i] == '0'
    requires AllDigits(s)
    ensures AllDigits(z + s) && DigitsValue(z + s) == DigitsValue(s)
    decreases |s|
  {
    if s == [] {
      assert z + s == z;
      ZerosValue(z);
    } else {
      assert (z + s)[..|z + s| - 1] == z + s[..|s| - 1];
      LeadingZeros(z, s[..|s| - 1]);
    }
  }

  lemma {:induction false} ZerosValue(z: string)
    requires forall i | 0 <= i < |z| :: z[i] == '0'
    ensures AllDigits(z) && DigitsValue(z) == 0
    decreases |z|
  {
    if z != [] {
      ZerosValue(z[..|z| - 1]);
    }
  }

  /** Padding with zeros does not change the number the digits denote. */
  lemma ZeroPadValue(n: nat, width: nat)
    ensures AllDigits(ZeroPad(NatToDigits(n), width))
    ensures DigitsValue(ZeroPad(NatToDigits(n), width)) == n
  {
    var d := NatToDigits(n);
    var r := ZeroPad(d, width);
    assert r == r[..|r| - |d|] + d;
    LeadingZeros(r[..|r| - |d|], d);
  }

  predicate IsSign(c: char) { c == '+' || c == '-' }

  /**
   * `Decimal(s)` for the literals the migration meets: an optional sign, digits, and at most
   * one point with digits on at least one side. Anything else is `None`, where Python raises
   * `InvalidOperation`.
   */
  function ParseDecimal(s: string): (r: Option<Decimal>)
    ensures r.Some? ==> s != [] && IsNumeral(if IsSign(s[0]) then s[1..] else s)
    ensures r.Some? && r.value.coefficient < 0 ==> s[0] == '-'
  {
    var body := if s != [] && IsSign(s[0]) then s[1..] else s;
    match ParseUnsigned(body)
    case None => None
    case Some(d) => Some(if s != [] && s[0] == '-' then Decimal(-d.coefficient, d.scale) else d)
  }

  /** A literal without sign: digits, or digits on either side of one point with at least one digit. */
  function ParseUnsigned(body: string): (r: Option<Decimal>)
    ensures r.Some? ==> body != [] && IsNumeral(body) && r.value.coefficient >= 0
  {
    var dot := IndexOf(body, '.');
    if dot < 0 then
      if body != [] && AllDigits(body) then Some(Decimal(DigitsValue(body), 0)) else None
    else
      var whole, fraction := body[..dot], body[dot + 1..];
      if AllDigits(whole) && AllDigits(fraction) && |whole| + |fraction| > 0 then
        assert IsNumeral(body) by {
          NumeralJoin(whole, fraction);
          assert body == whole + ['.'] + fraction;
        }
        Some(Decimal(DigitsValue(whole + fraction), |fraction|))
      else
        None
  }

  /** Whatever reads as a decimal holds a digit. */
  lemma ParsedHasDigit(s: string)
    requires ParseDecimal(s).Some?
    ensures HasDigit(s)
  {
    var body := if s != [] && IsSign(s[0]) then s[1..] else s;
    assert ParseUnsigned(body).Some?;
    UnsignedHasDigit(body);
    var k :| 0 <= k < |body| && IsDigit(body[k]);
    assert s[|s| - |body| + k] == body[k];
  }

  lemma UnsignedHasDigit(body: string)
    requires ParseUnsigned(body).Some?
    ensures HasDigit(body)
  {
    var dot := IndexOf(body, '.');
    if dot < 0 {
      assert IsDigit(body[0]);
    } else if dot > 0 {
      assert IsDigit(body[..dot][0]);
      assert IsDigit(body[0]);
    } else {
      assert IsDigit(body[dot + 1..][0]);
      assert IsDigit(body[dot + 1]);
    }
  }

  /** Only digits and decimal points. */
  predicate IsNumeral(s: string) { forall i | 0 <= i < |s| :: IsDigit(s[i]) || s[i] == '.' }

  lemma NumeralJoin(a: string, b: string)
    requires AllDigits(a) && AllDigits(b)
    ensures IsNumeral(a + ['.'] + b)
  {
    var s := a + ['.'] + b;
    forall i | 0 <= i < |s| ensures IsDigit(s[i]) || s[i] == '.' {
      if i < |a| {
        assert s[i] == a[i];
      } else if i > |a| {
        assert s[i] == b[i - |a| - 1];
      }
    }
  }

  /** The coefficient's digits, zero-padded so that at least one digit precedes the point. */
  function PaddedDigits(d: Decimal): (r: string)
    requires d.coefficient >= 0
    ensures AllDigits(r) && |r| > d.scale && DigitsValue(r) == d.coefficient
  {
    ZeroPadValue(d.coefficient, d.scale + 1);
    ZeroPad(NatToDigits(d.coefficient), d.scale + 1)
  }

  /** Fixed-point rendering of a non-negative decimal, keeping all of its fraction digits. */
  function FixedPoint(d: Decimal): string
    requires d.coefficient >= 0
  {
    var digits := PaddedDigits(d);
    if d.scale == 0 then digits
    else digits[..|digits| - d.scale] + ['.'] + digits[|digits| - d.scale..]
  }

  /** Digits and points, starting and ending with a digit. */
  predicate IsPlainNumber(s: string) {
    s != [] && IsDigit(s[0]) && IsDigit(s[|s| - 1]) && IsNumeral(s)
  }

  lemma DigitsPlain(whole: string, fraction: string)
    requires AllDigits(whole) && AllDigits(fraction) && whole != [] && fraction != []
    ensures IsPlainNumber(whole + ['.'] + fraction)
  {
    NumeralJoin(whole, fraction);
    var s := whole + ['.'] + fraction;
    assert s[0] == whole[0] && s[|s| - 1] == fraction[|fraction| - 1];
  }

  /** A rendering is a plain number: digits with one point at most. */
  lemma FixedPointShape(d: Decimal)
    requires d.coefficient >= 0
    ensures IsPlainNumber(FixedPoint(d))
  {
    var digits := PaddedDigits(d);
    if d.scale == 0 {
      DigitsShape(digits);
    } else {
      PointedShape(digits, |digits| - d.scale);
    }
  }

  lemma DigitsShape(s: string)
    requires s != [] && AllDigits(s)
    ensures IsPlainNumber(s)
  {
  }

  lemma PointedShape(digits: string, k: nat)
    requires AllDigits(digits) && 0 < k < |digits|
    ensures IsPlainNumber(digits[..k] + ['.'] + digits[k..])
  {
    AllDigitsSplit(digits, k);
    DigitsPlain(digits[..k], digits[k..]);
  }

  lemma ParseDigits(digits: string)
    requires digits != [] && AllDigits(digits)
    ensures ParseDecimal(digits) == Some(Decimal(DigitsValue(digits), 0))
  {
    assert !IsSign(digits[0]);
    assert IndexOf(digits, '.') < 0 by {
      var i := IndexOf(digits, '.');
      assert i >= 0 ==> IsDigit(digits[i]);
    }
  }

  lemma Reassemble(s: string, k: nat)
    requires k <= |s|
    ensures s[..k] + s[k..] == s
  {
  }

  lemma ParsePointed(digits: string, k: nat)
    requires AllDigits(digits) && 0 < k < |digits|
    ensures ParseDecimal(digits[..k] + ['.'] + digits[k..]) == Some(Decimal(DigitsValue(digits), |digits| - k))
  {
    AllDigitsSplit(digits, k);
    var whole, fraction := digits[..k], digits[k..];
    var s := whole + ['.'] + fraction;
    assert !IsSign(s[0]) by {
      assert s[0] == whole[0];
    }
    assert IndexOf(s, '.') == |whole| by {
      assert '.' !in whole;
      IndexOfAfter(whole, '.', fraction);
    }
    assert s[..|whole|] == whole && s[|whole| + 1..] == fraction;
    Reassemble(digits, k);
  }

  /** Reading back a fixed-point rendering yields the same decimal, scale included. */
  lemma ParseFixedPoint(d: Decimal)
    requires d.coefficient >= 0
    ensures ParseDecimal(FixedPoint(d)) == Some(d)
  {
    if d.scale == 0 {
      ParseWholeRendering(d);
    } else {
      ParsePointedRendering(d);
    }
  }

  lemma ParseWholeRendering(d: Decimal)
    requires d.coefficient >= 0 && d.scale == 0
    ensures ParseDecimal(FixedPoint(d)) == Some(d)
  {
    ParseDigits(PaddedDigits(d));
  }

  lemma ParsePointedRendering(d: Decimal)
    requires d.coefficient >= 0 && d.scale > 0
    ensures ParseDecimal(FixedPoint(d)) == Some(d)
  {
    var digits := PaddedDigits(d);
    ParsePointed(digits, |digits| - d.scale);
  }
}
