/**
 * The row-level transforms of the columnar migration: each column operation read as what it
 * does to one cell. Where they differ from the row-by-row normalizers, lemmas set the two side
 * by side.
 */
module PdNormalizers {

  import opened Options
  import opened Text
  import opened Decimals
  import opened Dates
  import opened Records
  import opened Addresses
  import CategoryNames
  import Statuses
  import Prices

  // ---------------------------------------------------------------- categories

  const UnknownCategory: string := "Unknown Category"

  /**
   * `normalize_category_name_pd` on one cell: stripped and title-cased; a missing name is
   * "Unknown Category". An empty name stays empty.
   */
  function NormalizeCategoryNamePd(name: Option<string>): (r: string)
    ensures name.Some? ==> |r| == |Strip(name.value)| && Lower(r) == Lower(Strip(name.value))
  {
    if name.None? then UnknownCategory else Title(Strip(name.value))
  }

  /** Every letter that starts a word is upper case, every other letter lower case. */
  lemma NormalizeCategoryPdWords(name: string, i: nat)
    requires i < |Strip(name)| && IsAlpha(Strip(name)[i])
    ensures IsUpper(NormalizeCategoryNamePd(Some(name))[i]) <==> (i == 0 || !IsAlpha(Strip(name)[i - 1]))
  {
    TitleWordStart(Strip(name), i);
  }

  lemma TitleWordStart(t: string, i: nat)
    requires i < |t| && IsAlpha(t[i])
    ensures IsUpper(Title(t)[i]) <==> (i == 0 || !IsAlpha(t[i - 1]))
  {
  }

  /** On a single word of letters the two variants agree. */
  lemma NormalizeCategoryVariantsAgree(name: string)
    requires Strip(name) != [] && AllAlpha(Strip(name))
    ensures NormalizeCategoryNamePd(Some(name)) == CategoryNames.NormalizeCategoryName(Some(name))
  {
    TitleOneWord(Strip(name));
    CategoryNames.PresentName(name);
  }

  /**
   * On two words they differ: the columnar variant capitalizes the second word, the
   * row-by-row one lower-cases it.
   */
  lemma NormalizeCategoryVariantsDiffer(a: string, b: string)
    requires a != [] && b != [] && AllAlpha(a) && AllAlpha(b)
    ensures |NormalizeCategoryNamePd(Some(a + " " + b))| == |a| + 1 + |b|
    ensures IsUpper(NormalizeCategoryNamePd(Some(a + " " + b))[|a| + 1])
    ensures |CategoryNames.NormalizeCategoryName(Some(a + " " + b))| == |a| + 1 + |b|
    ensures !IsUpper(CategoryNames.NormalizeCategoryName(Some(a + " " + b))[|a| + 1])
  {
    var s := a + " " + b;
    TwoWords(a, b);
    WordStartPd(s, |a| + 1);
    WordStartPrimary(s, |a| + 1);
  }

  lemma TwoWords(a: string, b: string)
    requires a != [] && b != [] && AllAlpha(a) && AllAlpha(b)
    ensures Strip(a + " " + b) == a + " " + b
    ensures IsAlpha((a + " " + b)[|a| + 1]) && !IsAlpha((a + " " + b)[|a|])
  {
    var s := a + " " + b;
    assert s[0] == a[0] && s[|s| - 1] == b[|b| - 1];
    StripNoSpace(s);
  }

  lemma WordStartPd(s: string, i: nat)
    requires s != [] && Strip(s) == s && 0 < i < |s| && IsAlpha(s[i]) && !IsAlpha(s[i - 1])
    ensures |NormalizeCategoryNamePd(Some(s))| == |s| && IsUpper(NormalizeCategoryNamePd(Some(s))[i])
  {
    NormalizeCategoryPdWords(s, i);
  }

  lemma WordStartPrimary(s: string, i: nat)
    requires s != [] && Strip(s) == s && 0 < i < |s|
    ensures |CategoryNames.NormalizeCategoryName(Some(s))| == |s|
    ensures !IsUpper(CategoryNames.NormalizeCategoryName(Some(s))[i])
  {
    CategoryNames.PresentName(s);
    CategoryNames.NormalizeCategoryShape(Some(s));
  }

  /** A missing name: "Unknown Category" here, "Unknown" row by row. */
  lemma MissingCategoryVariants()
    ensures NormalizeCategoryNamePd(None) == UnknownCategory
    ensures CategoryNames.NormalizeCategoryName(None) == "Unknown"
  {
  }

  /** An empty name stays empty here and is "Unknown" row by row. */
  lemma EmptyCategoryVariants()
    ensures NormalizeCategoryNamePd(Some([])) == []
    ensures CategoryNames.NormalizeCategoryName(Some([])) == "Unknown"
  {
    assert |Strip([])| == 0;
  }

  // ---------------------------------------------------------------- dates

  /** The date a cell holds under the first format that reads it; a null cell holds none. */
  function CellDate(text: Option<string>, formats: seq<Format>, parse: Parser): Option<DateTime>
  {
    if text.None? then None else FirstParse(formats, text.value, parse)
  }

  /** Reading with more formats only fills what the earlier ones left empty. */
  lemma {:induction false} FirstParseAppend(f: seq<Format>, g: seq<Format>, text: string, parse: Parser)
    ensures FirstParse(f + g, text, parse) ==
            if FirstParse(f, text, parse).Some? then FirstParse(f, text, parse) else FirstParse(g, text, parse)
  {
    if f == [] {
      assert f + g == g;
    } else {
      assert (f + g)[1..] == f[1..] + g;
      FirstParseAppend(f[1..], g, text, parse);
    }
  }

  /**
   * `parse_date_string_pd`: the column starts null and each format in turn fills the cells
   * still null with what it reads. Cells are not stripped.
   */
  method ParseDateStringPd(texts: seq<Option<string>>, formats: seq<Format>, parse: Parser)
    returns (parsed: seq<Option<DateTime>>)
    ensures |parsed| == |texts|
    ensures forall i | 0 <= i < |texts| :: parsed[i] == CellDate(texts[i], formats, parse)
  {
    parsed := seq(|texts|, i => None);
    for k := 0 to |formats|
      invariant |parsed| == |texts|
      invariant forall i | 0 <= i < |texts| :: parsed[i] == CellDate(texts[i], formats[..k], parse)
    {
      var attempt := seq(|texts|, i requires 0 <= i < |texts| =>
        if texts[i].None? then None else parse(formats[k], texts[i].value));
      parsed := seq(|texts|, i requires 0 <= i < |texts| => if parsed[i].Some? then parsed[i] else attempt[i]);
      forall i | 0 <= i < |texts| && texts[i].Some?
        ensures parsed[i] == CellDate(texts[i], formats[..k + 1], parse)
      {
        assert formats[..k + 1] == formats[..k] + [formats[k]];
        FirstParseAppend(formats[..k], [formats[k]], texts[i].value, parse);
      }
    }
    assert formats[..|formats|] == formats;
  }

  // ---------------------------------------------------------------- prices

  /** The currency marks `convert_price` removes, in its order. */
  function DropCurrency(s: string): string
  {
    ReplaceAll(ReplaceAll(ReplaceAll(s, "USD", []), "EUR", []), "$", [])
  }

  /** The text `convert_price` hands to `Decimal`: upper-cased, "USD", "EUR" and "$" removed, stripped. */
  function CleanPricePd(s: string): (r: string)
    ensures HasDigit(r) ==> HasDigit(s)
  {
    var u := Upper(s);
    var r := Strip(DropCurrency(u));
    assert HasDigit(r) ==> HasDigit(s) by {
      if !HasDigit(s) {
        assert !HasDigit(u);
        DeleteNoDigit(u, "USD");
        DeleteNoDigit(ReplaceAll(u, "USD", []), "EUR");
        DeleteNoDigit(ReplaceAll(ReplaceAll(u, "USD", []), "EUR", []), "$");
        StripNoDigit(DropCurrency(u));
      }
    }
    r
  }

  /** Text without currency marks passes through the removal unchanged. */
  lemma NoCurrency(s: string)
    requires forall k | 0 <= k < |s| :: s[k] != 'U' && s[k] != 'E' && s[k] != '$'
    ensures DropCurrency(s) == s
  {
    assert ReplaceAll(s, "USD", []) == s by {
      assert 'U' !in s;
    }
    assert ReplaceAll(s, "EUR", []) == s by {
      assert 'E' !in s;
    }
    assert ReplaceAll(s, "$", []) == s by {
      assert '$' !in s;
    }
  }

  /** Numerals, signs and points are left as they stand by the cleaning. */
  lemma CleanNumeric(s: string)
    requires s != [] && !IsSpace(s[0]) && !IsSpace(s[|s| - 1])
    requires forall k | 0 <= k < |s| :: IsDigit(s[k]) || s[k] == '.' || s[k] == '-'
    ensures CleanPricePd(s) == s
  {
    UpperPlain(s);
    NoCurrency(s);
    StripNoSpace(s);
  }

  /** `convert_price`: the cleaned text read as a decimal; a null cell or an unreadable text is `None`. */
  function ConvertPrice(price: Option<string>): (r: Option<Decimal>)
    ensures r.Some? ==> price.Some? && HasDigit(price.value)
  {
    if price.None? then None
    else
      var r := ParseDecimal(CleanPricePd(price.value));
      assert r.Some? ==> HasDigit(price.value) by {
        if r.Some? {
          ParsedHasDigit(CleanPricePd(price.value));
        }
      }
      r
  }

  /** The price column after `fillna(Decimal('0.00'))`. */
  function PriceOrZero(price: Option<Decimal>): Decimal
  {
    if price.Some? then price.value else Zero
  }

  lemma {:induction false} DeleteNoDigit(s: string, pat: string)
    requires pat != [] && !HasDigit(s)
    ensures !HasDigit(ReplaceAll(s, pat, []))
    decreases |s|
  {
    if |s| >= |pat| {
      if s[..|pat|] == pat {
        assert !HasDigit(s[|pat|..]) by {
          assert forall k | 0 <= k < |s| - |pat| :: s[|pat|..][k] == s[|pat| + k];
        }
        DeleteNoDigit(s[|pat|..], pat);
        assert [] + ReplaceAll(s[|pat|..], pat, []) == ReplaceAll(s[|pat|..], pat, []);
      } else {
        assert !HasDigit(s[1..]) by {
          assert forall k | 0 <= k < |s| - 1 :: s[1..][k] == s[1 + k];
        }
        DeleteNoDigit(s[1..], pat);
        var t := ReplaceAll(s[1..], pat, []);
        assert forall k | 1 <= k < |t| + 1 :: ([s[0]] + t)[k] == t[k - 1];
      }
    }
  }

  lemma StripNoDigit(s: string)
    requires !HasDigit(s)
    ensures !HasDigit(Strip(s))
  {
    var l := StripLeft(s);
    assert !HasDigit(l) by {
      var n := SpaceRunEnd(s, 0);
      assert forall k | 0 <= k < |l| :: l[k] == s[n + k];
    }
    var r := StripRight(l);
    assert forall k | 0 <= k < |r| :: r[k] == l[k];
  }

  lemma UpperPlain(s: string)
    requires forall i | 0 <= i < |s| :: !IsLower(s[i])
    ensures Upper(s) == s
  {
  }

  /** A text without digits has no price: `None`, as row by row. */
  lemma ConvertPriceWithoutDigits(s: string)
    requires !HasDigit(s)
    ensures ConvertPrice(Some(s)) == None
    ensures Prices.ExtractPriceDecimal(Some(s)) == None
  {
  }

  /** A plain number followed by " USD" reads as itself. */
  lemma ConvertPriceUsd(d: Decimal)
    requires d.coefficient >= 0
    ensures ConvertPrice(Some(FixedPoint(d) + " USD")) == Some(d)
  {
    var x := FixedPoint(d);
    FixedPointShape(d);
    assert CleanPricePd(x + " USD") == x by {
      UsdCleaned(x);
    }
    ParseFixedPoint(d);
  }

  lemma UsdCleaned(x: string)
    requires IsPlainNumber(x)
    ensures CleanPricePd(x + " USD") == x
  {
    var p := x + " ";
    assert x + " USD" == p + "USD";
    assert forall k | 0 <= k < |p| :: IsDigit(p[k]) || p[k] == '.' || p[k] == ' ' by {
      assert forall k | 0 <= k < |x| :: p[k] == x[k];
    }
    assert Upper(p + "USD") == p + "USD" by {
      UsdUpper(p);
    }
    assert DropCurrency(p + "USD") == p by {
      DropAfterUsd(p);
    }
    assert Strip(p) == x by {
      BlankAfter(x);
    }
  }

  lemma UsdUpper(p: string)
    requires forall k | 0 <= k < |p| :: IsDigit(p[k]) || p[k] == '.' || p[k] == ' '
    ensures Upper(p + "USD") == p + "USD"
  {
    UpperPlain(p + "USD");
  }

  lemma DropAfterUsd(p: string)
    requires forall k | 0 <= k < |p| :: IsDigit(p[k]) || p[k] == '.' || p[k] == ' '
    ensures DropCurrency(p + "USD") == p
  {
    CutUsd(p);
    assert ReplaceAll(p, "EUR", []) == p by {
      assert 'E' !in p;
    }
    assert ReplaceAll(p, "$", []) == p by {
      assert '$' !in p;
    }
  }

  lemma CutUsd(p: string)
    requires forall k | 0 <= k < |p| :: p[k] != 'U'
    ensures ReplaceAll(p + "USD", "USD", []) == p
  {
    ReplaceAfterPrefix(p, "USD", "USD", []);
    ReplaceWhole("USD", []);
  }

  lemma BlankAfter(x: string)
    requires x != [] && !IsSpace(x[0]) && !IsSpace(x[|x| - 1])
    ensures Strip(x + " ") == x
  {
    assert x + " " == [] + x + " ";
    StripPadded([], x, " ");
    StripNoSpace(x);
  }

  /** A dollar sign in front of a plain number is dropped. */
  lemma ConvertPriceDollar(d: Decimal)
    requires d.coefficient >= 0
    ensures ConvertPrice(Some("$" + FixedPoint(d))) == Some(d)
  {
    var x := FixedPoint(d);
    FixedPointShape(d);
    assert CleanPricePd("$" + x) == x by {
      DollarCleaned(x);
    }
    ParseFixedPoint(d);
  }

  lemma DollarCleaned(x: string)
    requires IsPlainNumber(x)
    ensures CleanPricePd("$" + x) == x
  {
    var s := "$" + x;
    assert Upper(s) == s by {
      assert forall k | 1 <= k < |s| :: s[k] == x[k - 1];
      UpperPlain(s);
    }
    assert DropCurrency(s) == x by {
      CutDollar(x);
    }
    StripNoSpace(x);
  }

  lemma CutDollar(x: string)
    requires IsPlainNumber(x)
    ensures DropCurrency("$" + x) == x
  {
    var s := "$" + x;
    assert forall k | 1 <= k < |s| :: s[k] == x[k - 1];
    assert ReplaceAll(ReplaceAll(s, "USD", []), "EUR", []) == s by {
      assert 'U' !in s && 'E' !in s;
    }
    assert ReplaceAll(s, "$", []) == x by {
      assert s[..1] == "$" && s[1..] == x;
      assert '$' !in x;
    }
  }

  /**
   * A price range is no decimal: the columnar variant reads nothing (and the stage stores
   * 0.00), the row-by-row variant reads the lower end.
   */
  lemma PriceRangeVariants(low: Decimal, high: Decimal)
    requires low.coefficient >= 0 && high.coefficient >= 0
    ensures ConvertPrice(Some(FixedPoint(low) + "-" + FixedPoint(high))) == None
    ensures Prices.ExtractPriceDecimal(Some(FixedPoint(low) + "-" + FixedPoint(high))) == Some(low)
  {
    var x, y := FixedPoint(low), FixedPoint(high);
    FixedPointShape(low);
    FixedPointShape(high);
    assert CleanPricePd(x + "-" + y) == x + "-" + y by {
      RangeCleaned(x, y);
    }
    RangeUnreadable(x, y);
    Prices.ExtractPriceRange(low, high);
  }

  lemma RangeCleaned(x: string, y: string)
    requires IsPlainNumber(x) && IsPlainNumber(y)
    ensures CleanPricePd(x + "-" + y) == x + "-" + y
  {
    var s := x + "-" + y;
    assert forall k | 0 <= k < |s| :: IsDigit(s[k]) || s[k] == '.' || s[k] == '-' by {
      assert forall k | 0 <= k < |x| :: s[k] == x[k];
      assert forall k | |x| + 1 <= k < |s| :: s[k] == y[k - |x| - 1];
    }
    assert s[0] == x[0] && s[|s| - 1] == y[|y| - 1];
    CleanNumeric(s);
  }

  lemma RangeUnreadable(x: string, y: string)
    requires IsPlainNumber(x)
    ensures ParseDecimal(x + "-" + y) == None
  {
    var s := x + "-" + y;
    assert !IsSign(s[0]) by {
      assert s[0] == x[0];
    }
    assert !IsNumeral(s) by {
      assert s[|x|] == '-';
    }
  }

  /** A leading minus sign is read: a negative price here, none row by row. */
  lemma NegativePriceVariants(d: Decimal)
    requires d.coefficient > 0
    ensures ConvertPrice(Some("-" + FixedPoint(d))) == Some(Decimal(-d.coefficient, d.scale))
    ensures Prices.ExtractPriceDecimal(Some("-" + FixedPoint(d))) == None
  {
    var x := FixedPoint(d);
    FixedPointShape(d);
    assert CleanPricePd("-" + x) == "-" + x by {
      MinusCleaned(x);
    }
    assert ParseDecimal("-" + x) == Some(Decimal(-d.coefficient, d.scale)) by {
      ParseNegated(d);
    }
    Prices.ExtractPriceNegative(x);
  }

  lemma ParseNegated(d: Decimal)
    requires d.coefficient >= 0
    ensures ParseDecimal("-" + FixedPoint(d)) == Some(Decimal(-d.coefficient, d.scale))
  {
    var x := FixedPoint(d);
    FixedPointShape(d);
    ParseFixedPoint(d);
    NegatedParse(x, d);
  }

  lemma NegatedParse(x: string, d: Decimal)
    requires x != [] && IsDigit(x[0]) && ParseDecimal(x) == Some(d)
    ensures ParseDecimal("-" + x) == Some(Decimal(-d.coefficient, d.scale))
  {
    UnsignedOfPlain(x, d);
    assert ("-" + x)[1..] == x;
    ParseMinus("-" + x, d);
  }

  lemma UnsignedOfPlain(x: string, d: Decimal)
    requires x != [] && IsDigit(x[0]) && ParseDecimal(x) == Some(d)
    ensures ParseUnsigned(x) == Some(d)
  {
  }

  lemma ParseMinus(s: string, d: Decimal)
    requires s != [] && s[0] == '-' && ParseUnsigned(s[1..]) == Some(d)
    ensures ParseDecimal(s) == Some(Decimal(-d.coefficient, d.scale))
  {
  }

  lemma MinusCleaned(x: string)
    requires IsPlainNumber(x)
    ensures CleanPricePd("-" + x) == "-" + x
  {
    var s := "-" + x;
    assert forall k | 1 <= k < |s| :: s[k] == x[k - 1];
    assert s[|s| - 1] == x[|x| - 1];
    CleanNumeric(s);
  }

  // ---------------------------------------------------------------- statuses

  /** `status_mapping_pd`: exact spellings only. */
  const StatusMappingPd: map<string, OrderStatus> := map[
    "pending" := Pending, "Pending" := Pending,
    "PROCESSING" := Processing,
    "shipped" := Shipped, "Shipped" := Shipped,
    "delivered" := Delivered, "DELIVERED" := Delivered,
    "cancelled" := Cancelled, "Returned?" := Refunded]

  /** The status column: the dictionary lookup, `Pending` for a null cell or a spelling it lacks. */
  function StatusLookupPd(text: Option<string>): (r: OrderStatus)
    ensures text.Some? && text.value in StatusMappingPd ==> r == StatusMappingPd[text.value]
    ensures (text.None? || text.value !in StatusMappingPd) ==> r == Pending
  {
    if text.Some? then Lookup(StatusMappingPd, text.value).GetOr(Pending) else Pending
  }

  /** Which spellings give which status. */
  lemma StatusLookupPdIff(text: Option<string>)
    ensures StatusLookupPd(text) == Processing <==> text == Some("PROCESSING")
    ensures StatusLookupPd(text) == Refunded <==> text == Some("Returned?")
    ensures StatusLookupPd(text) == Cancelled <==> text == Some("cancelled")
    ensures StatusLookupPd(text) == Shipped <==> text == Some("shipped") || text == Some("Shipped")
    ensures StatusLookupPd(text) == Delivered <==> text == Some("delivered") || text == Some("DELIVERED")
  {
  }

  /**
   * The lookup is case-sensitive where the row-by-row mapping is not: "Cancelled" is pending
   * here and cancelled there; "PROCESSING" is processing here and pending there.
   */
  lemma StatusVariantsDiffer()
    ensures StatusLookupPd(Some("Cancelled")) == Pending
    ensures Statuses.MapOrderStatus(Some("Cancelled")) == Cancelled
    ensures StatusLookupPd(Some("PROCESSING")) == Processing
    ensures Statuses.MapOrderStatus(Some("PROCESSING")) == Pending
  {
    CancelledVariants();
    ProcessingVariants();
  }

  lemma CancelledVariants()
    ensures StatusLookupPd(Some("Cancelled")) == Pending
    ensures Statuses.MapOrderStatus(Some("Cancelled")) == Cancelled
  {
    CancelledMissing();
    CancelledPrimary();
  }

  lemma CancelledMissing()
    ensures StatusLookupPd(Some("Cancelled")) == Pending
  {
    assert "Cancelled" !in StatusMappingPd;
  }

  lemma CancelledPrimary()
    ensures Statuses.MapOrderStatus(Some("Cancelled")) == Cancelled
  {
    assert Statuses.MapOrderStatus(Some("Cancelled")) == Statuses.StatusOfWord("cancelled") by {
      CancelledKey();
      Statuses.MapOrderStatusByKey("Cancelled");
    }
    CancelledWord();
  }

  lemma CancelledWord()
    ensures Statuses.StatusOfWord("cancelled") == Cancelled
  {
    var w := "cancelled";
    assert w[0] == 'c';
    assert "pending"[0] == 'p' && "processing"[0] == 'p' && "shipped"[0] == 's';
    assert "enviado"[0] == 'e' && "delivered"[0] == 'd' && "entregado"[0] == 'e';
  }

  lemma ProcessingVariants()
    ensures StatusLookupPd(Some("PROCESSING")) == Processing
    ensures Statuses.MapOrderStatus(Some("PROCESSING")) == Pending
  {
    ProcessingPrimary();
  }

  lemma ProcessingPrimary()
    ensures Statuses.MapOrderStatus(Some("PROCESSING")) == Pending
  {
    assert Statuses.MapOrderStatus(Some("PROCESSING")) == Statuses.StatusOfWord("processing") by {
      ProcessingKey();
      Statuses.MapOrderStatusByKey("PROCESSING");
    }
  }

  lemma CancelledKey()
    ensures Strip(Lower("Cancelled")) == "cancelled"
  {
    assert Lower("Cancelled") == "cancelled";
    StripNoSpace("cancelled");
  }

  lemma ProcessingKey()
    ensures Strip(Lower("PROCESSING")) == "processing"
  {
    assert Lower("PROCESSING") == "processing";
    StripNoSpace("processing");
  }

  // ---------------------------------------------------------------- SKUs and quantities

  const SkuPrefixPd: string := "SKU-PD-"

  /**
   * The SKU column: "SKU-PD-", the legacy id in decimal, "-", and the first 15 characters of
   * the name with blanks turned into dashes, upper-cased.
   */
  function SkuPd(id: nat, name: string): (sku: string)
    ensures |sku| == |SkuPrefixPd| + |NatToDigits(id)| + 1 + |Take(name, 15)|
  {
    var tail := Upper(ReplaceAll(Take(name, 15), " ", "-"));
    ReplaceCharLength(Take(name, 15), ' ', '-');
    SkuPrefixPd + NatToDigits(id) + "-" + tail
  }

  lemma {:induction false} ReplaceCharLength(s: string, c: char, d: char)
    ensures |ReplaceAll(s, [c], [d])| == |s|
    decreases |s|
  {
    if |s| >= 1 {
      ReplaceCharLength(s[1..], c, d);
      assert s[1..] == s[|[c]|..];
    }
  }

  /** The legacy id is the digits between the prefix and the next dash. */
  lemma SkuPdId(id: nat, name: string)
    ensures IndexFrom(SkuPd(id, name), '-', |SkuPrefixPd|) == |SkuPrefixPd| + |NatToDigits(id)|
    ensures SkuPd(id, name)[|SkuPrefixPd|..|SkuPrefixPd| + |NatToDigits(id)|] == NatToDigits(id)
  {
    var sku, digits := SkuPd(id, name), NatToDigits(id);
    var n := |SkuPrefixPd|;
    assert forall k | 0 <= k < |digits| :: sku[n + k] == digits[k];
    assert sku[n + |digits|] == '-';
    IndexFromAt(sku, '-', n, n + |digits|);
    assert sku[n..n + |digits|] == digits;
  }

  lemma {:induction false} IndexFromAt(s: string, c: char, i: nat, m: nat)
    requires i <= m < |s| && s[m] == c
    requires forall k | i <= k < m :: s[k] != c
    ensures IndexFrom(s, c, i) == m
    decreases m - i
  {
    if i < m {
      IndexFromAt(s, c, i + 1, m);
    }
  }

  /** Distinct legacy ids give distinct SKUs, whatever the names. */
  lemma SkuPdInjective(id1: nat, name1: string, id2: nat, name2: string)
    requires SkuPd(id1, name1) == SkuPd(id2, name2)
    ensures id1 == id2
  {
    SkuPdId(id1, name1);
    SkuPdId(id2, name2);
    assert NatToDigits(id1) == NatToDigits(id2);
  }

  /** `quantity_norm`: a null quantity is 1, and anything below 1 is raised to 1. */
  function QuantityNormPd(quantity: Option<int>): (q: int)
    ensures q >= 1
    ensures quantity.Some? && quantity.value >= 1 ==> q == quantity.value
    ensures !(quantity.Some? && quantity.value >= 1) ==> q == 1
  {
    var q := if quantity.None? then 1 else quantity.value;
    if q < 1 then 1 else q
  }

  /** Both variants settle the quantity alike. */
  lemma QuantityVariantsAgree(quantity: Option<int>)
    ensures QuantityNormPd(quantity) == Prices.ItemQuantity(quantity)
  {
  }
}
