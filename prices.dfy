/** `extract_price_decimal` and the item quantity rule of the row-by-row migration. */
module Prices {

  import opened Options
  import opened Text
  import opened Decimals


  /** The characters the price cleaner keeps: digits, the point and the minus sign. */
  predicate IsPriceChar(c: char) { IsDigit(c) || c == '.' || c == '-' }

  /**
   * `extract_price_decimal`: every character but digits, `.` and `-` removed, then the text
   * before the first `-` read as a decimal. A range yields its lower end; a sign makes the
   * text before it empty, so a negative price is not read.
   */
  function ExtractPriceDecimal(price: Option<string>): (r: Option<Decimal>)
    ensures r.Some? ==> r.value.coefficient >= 0
    ensures r.Some? ==> price.Some? && HasDigit(price.value)
  {
    if price.None? || price.value == [] then None
    else
      var cleaned := Filter(price.value, IsPriceChar);
      if cleaned == [] then None
      else
        var head := Split(cleaned, '-')[0];
        var r := ParseDecimal(head);
        assert r.Some? ==> HasDigit(price.value) by {
          if r.Some? {
            ParsedHasDigit(head);
            PrefixOfSplit(cleaned, '-');
            KeptDigit(head, cleaned, price.value);
          }
        }
        r
  }

  lemma PrefixOfSplit(s: string, sep: char)
    ensures forall i | 0 <= i < |Split(s, sep)[0]| :: Split(s, sep)[0][i] in s
  {
    var i := IndexOf(s, sep);
    if i >= 0 {
      assert Split(s, sep)[0] == s[..i];
    }
  }

  lemma KeptDigit(head: string, cleaned: string, price: string)
    requires HasDigit(head)
    requires forall i | 0 <= i < |head| :: head[i] in cleaned
    requires cleaned == Filter(price, IsPriceChar)
    ensures HasDigit(price)
  {
    var k :| 0 <= k < |head| && IsDigit(head[k]);
    var j :| 0 <= j < |cleaned| && cleaned[j] == head[k];
    var i :| 0 <= i < |price| && price[i] == cleaned[j];
  }

  /** What the cleaner reads from a text whose kept characters are not all dropped. */
  lemma ExtractPriceUnfold(s: string)
    requires Filter(s, IsPriceChar) != []
    ensures ExtractPriceDecimal(Some(s)) == ParseDecimal(Split(Filter(s, IsPriceChar), '-')[0])
  {
  }

  /** Text around a price that holds no digit, point or minus sign is ignored. */
  lemma ExtractPriceIgnoresNoise(noise1: string, d: Decimal, noise2: string)
    requires d.coefficient >= 0
    requires forall i | 0 <= i < |noise1| :: !IsPriceChar(noise1[i])
    requires forall i | 0 <= i < |noise2| :: !IsPriceChar(noise2[i])
    ensures ExtractPriceDecimal(Some(noise1 + FixedPoint(d) + noise2)) == Some(d)
  {
    var x := FixedPoint(d);
    FixedPointShape(d);
    assert Filter(noise1 + x + noise2, IsPriceChar) == x by {
      NoiseDropped(noise1, x, noise2);
    }
    assert Split(x, '-')[0] == x by {
      NumberHead(x);
    }
    ExtractPriceUnfold(noise1 + x + noise2);
    ParseFixedPoint(d);
  }

  lemma NoiseDropped(noise1: string, x: string, noise2: string)
    requires forall i | 0 <= i < |noise1| :: !IsPriceChar(noise1[i])
    requires forall i | 0 <= i < |noise2| :: !IsPriceChar(noise2[i])
    requires IsPlainNumber(x)
    ensures Filter(noise1 + x + noise2, IsPriceChar) == x
  {
    assert Filter(noise1, IsPriceChar) == [] by { FilterDropsAll(noise1, IsPriceChar); }
    assert Filter(noise2, IsPriceChar) == [] by { FilterDropsAll(noise2, IsPriceChar); }
    assert Filter(x, IsPriceChar) == x by { NumberKept(x); }
    FilterConcat(noise1, x, IsPriceChar);
    FilterConcat(noise1 + x, noise2, IsPriceChar);
  }

  lemma NumberKept(x: string)
    requires IsPlainNumber(x)
    ensures Filter(x, IsPriceChar) == x
  {
    assert forall i | 0 <= i < |x| :: IsPriceChar(x[i]);
    FilterKeepsAll(x, IsPriceChar);
  }

  /** A price range `"a-b"` yields its lower end `a`. */
  lemma ExtractPriceRange(low: Decimal, high: Decimal)
    requires low.coefficient >= 0 && high.coefficient >= 0
    ensures ExtractPriceDecimal(Some(FixedPoint(low) + "-" + FixedPoint(high))) == Some(low)
  {
    var x, y := FixedPoint(low), FixedPoint(high);
    assert Filter(x + "-" + y, IsPriceChar) == x + "-" + y by {
      FixedPointShape(low);
      FixedPointShape(high);
      RangeKept(x, y);
    }
    assert Split(x + "-" + y, '-')[0] == x by {
      FixedPointShape(low);
      RangeHead(x, y);
    }
    ExtractPriceUnfold(x + "-" + y);
    ParseFixedPoint(low);
  }

  lemma NumberHead(x: string)
    requires IsPlainNumber(x)
    ensures Split(x, '-')[0] == x
  {
    assert '-' !in x;
    SplitAbsent(x, '-');
  }

  lemma RangeKept(x: string, y: string)
    requires IsPlainNumber(x) && IsPlainNumber(y)
    ensures Filter(x + "-" + y, IsPriceChar) == x + "-" + y
  {
    FilterConcat(x + "-", y, IsPriceChar);
    FilterConcat(x, "-", IsPriceChar);
    FilterKeepsAll(x, IsPriceChar);
    FilterKeepsAll(y, IsPriceChar);
    assert Filter("-", IsPriceChar) == "-";
  }

  lemma RangeHead(x: string, y: string)
    requires IsPlainNumber(x)
    ensures Split(x + "-" + y, '-')[0] == x
  {
    assert '-' !in x;
    IndexOfAfter(x, '-', y);
    assert (x + ['-'] + y)[..|x|] == x;
  }

  /** A minus sign in front of the digits makes the price unreadable. */
  lemma ExtractPriceNegative(s: string)
    ensures ExtractPriceDecimal(Some("-" + s)) == None
  {
    FilterConcat("-", s, IsPriceChar);
    var cleaned := Filter("-" + s, IsPriceChar);
    assert cleaned[0] == '-';
    assert Split(cleaned, '-')[0] == [];
  }

  /** A literal with two points, such as "1.2.3", is no price. */
  lemma ExtractPriceTwoPoints(a: string, b: string, c: string)
    requires a != [] && b != [] && c != [] && AllDigits(a) && AllDigits(b) && AllDigits(c)
    ensures ExtractPriceDecimal(Some(a + "." + b + "." + c)) == None
  {
    var x := a + "." + b + "." + c;
    TwoPointsPlain(a, b, c);
    NoiseDropped([], x, []);
    assert [] + x + [] == x;
    NumberHead(x);
    ExtractPriceUnfold(x);
    TwoPointsUnreadable(a, b, c);
  }

  lemma TwoPointsPlain(a: string, b: string, c: string)
    requires a != [] && b != [] && c != [] && AllDigits(a) && AllDigits(b) && AllDigits(c)
    ensures IsPlainNumber(a + "." + b + "." + c)
  {
    var x := a + "." + b + "." + c;
    DigitsPlain(b, c);
    NumeralJoin(a, []);
    assert x == (a + ['.']) + (b + "." + c);
    assert IsNumeral(x);
    assert x[0] == a[0] && x[|x| - 1] == c[|c| - 1];
  }

  lemma TwoPointsUnreadable(a: string, b: string, c: string)
    requires a != [] && AllDigits(a)
    ensures ParseDecimal(a + "." + b + "." + c) == None
  {
    var tail := b + "." + c;
    var x := a + "." + b + "." + c;
    assert x == a + ['.'] + tail;
    IndexOfAfter(a, '.', tail);
    assert x[0] == a[0];
    assert x[|a| + 1..] == tail && tail[|b|] == '.';
  }

  /** Text with no digit is no price ("contact us"). */
  lemma ExtractPriceWithoutDigits(s: string)
    requires forall i | 0 <= i < |s| :: !IsDigit(s[i])
    ensures ExtractPriceDecimal(Some(s)) == None
  {
  }

  // ---------------------------------------------------------------- order items

  /** The quantity of an order item: the legacy quantity when it is positive, else 1. */
  function ItemQuantity(quantity: Option<int>): (q: int)
    ensures q >= 1
    ensures quantity.Some? && quantity.value >= 1 ==> q == quantity.value
    ensures !(quantity.Some? && quantity.value >= 1) ==> q == 1
  {
    if quantity.Some? && quantity.value > 0 then quantity.value else 1
  }
}
