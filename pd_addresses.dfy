/**
 * `parse_combined_address_pd` of the columnar migration: the combined address cut at its
 * first comma (street), its second comma (city) and, when one is left, its last comma
 * (country); a ZIP code looked for in what remains, the state being the text before it.
 * A text with fewer than two commas makes the unpacking fail, and the handler falls back
 * to the whole text as street with placeholder fields.
 */
module PdAddresses {

  import opened Options
  import opened Text
  import opened Addresses

  /** The five columns the parser adds; any of them may be null. */
  datatype PdAddress = PdAddress(street: Option<string>, city: Option<string>, state: Option<string>,
                                 zip: Option<string>, country: Option<string>)

  const NoFields: PdAddress := PdAddress(None, None, None, None, None)

  const PlaceholderZip: string := "00000"
  const UnknownCountry: string := "Unknown"

  /** The handler's fields: the first 255 characters as street, "N/A", no state, "00000", "Unknown". */
  function Fallback(address: string): PdAddress
  {
    PdAddress(Some(Take(address, 255)), Some(NotAvailable), None, Some(PlaceholderZip), Some(UnknownCountry))
  }

  /**
   * The text holding state and ZIP, and the country if one is found: after the last comma
   * when a comma is left; otherwise the last of more than three words when it has no digit.
   */
  function StateZipCountry(rest: string): (string, Option<string>)
  {
    if ',' in rest then
      var (stateZip, country) := SplitLast(rest, ',');
      (stateZip, Some(Strip(country)))
    else
      var t := Strip(rest);
      var words := Words(t);
      if |words| > 3 && !HasDigit(words[|words| - 1]) then
        (JoinWords(words[..|words| - 1]), Some(words[|words| - 1]))
      else
        (t, None)
  }

  /** State and ZIP from their text: the text before a ZIP code, or the whole cut to 50. */
  function StateAndZip(stateZip: string): (r: (string, Option<string>))
    ensures r.1.Some? ==> IsZipCode(r.1.value)
    ensures r.1.None? ==> |r.0| <= 50
  {
    match FindZip(stateZip, 0)
    case Some((i, n)) =>
      assert n == ZipLengthAt(stateZip, i) > 0;
      assert IsZipCode(stateZip[i..i + n]);
      (Strip(stateZip[..i]), Some(stateZip[i..i + n]))
    case None =>
      var state := Take(Strip(stateZip), 50);
      assert |state| <= 50;
      (state, None)
  }

  lemma PlaceholderIsZip()
    ensures IsZipCode(PlaceholderZip)
  {
  }

  /**
   * `parse_combined_address_pd` on one cell. A null cell gives five nulls. Otherwise the
   * street and city are the stripped first two pieces; with a ZIP code, the state is the
   * stripped text before it; without one, the state is the stripped rest cut to 50
   * characters. When the first or second comma is missing, the handler's fields.
   */
  function ParseCombinedAddressPd(address: Option<string>): (r: PdAddress)
    ensures address.None? ==> r == NoFields
    ensures address.Some? ==> r.street.Some? && r.city.Some?
    ensures r.zip.Some? ==> IsZipCode(r.zip.value)
    ensures address.Some? && r.zip.None? ==> r.state.Some? && |r.state.value| <= 50
  {
    if address.None? then NoFields
    else
      var s := address.value;
      var (streetPart, rest) := SplitOnce(s, ',');
      var (cityPart, stateZipCountry) := if rest.None? then ([], None) else SplitOnce(rest.value, ',');
      if stateZipCountry.None? then
        PlaceholderIsZip();
        Fallback(s)
      else
        var (stateZip, country) := StateZipCountry(stateZipCountry.value);
        var (state, zip) := StateAndZip(stateZip);
        PdAddress(Some(Strip(streetPart)), Some(Strip(cityPart)), Some(state), zip, country)
  }

  // ---------------------------------------------------------------- properties

  /** With at most one comma the unpacking fails and the handler's fields come out. */
  lemma ParseCombinedAddressPdFewCommas(s: string)
    requires forall i, j | 0 <= i < j < |s| :: s[i] != ',' || s[j] != ','
    ensures ParseCombinedAddressPd(Some(s)) == Fallback(s)
  {
    var i := IndexOf(s, ',');
    if i >= 0 {
      var rest := s[i + 1..];
      assert ',' !in rest by {
        assert forall k | 0 <= k < |rest| :: rest[k] == s[i + 1 + k];
      }
      assert SplitOnce(rest, ',').1.None?;
    }
  }

  /** The fields when both commas are found. */
  lemma ParsePdSplit(s: string, a: string, r1: string, b: string, r2: string)
    requires SplitOnce(s, ',') == (a, Some(r1)) && SplitOnce(r1, ',') == (b, Some(r2))
    ensures var (stateZip, country) := StateZipCountry(r2);
            ParseCombinedAddressPd(Some(s)) ==
            PdAddress(Some(Strip(a)), Some(Strip(b)), Some(StateAndZip(stateZip).0), StateAndZip(stateZip).1, country)
  {
  }

  /**
   * The layout `"street, city, ST zip, country"` is read field by field: the street, city and
   * country as written, the two-letter state and the ZIP code.
   */
  lemma ParseCombinedAddressPdUsLayout(street: string, city: string, state: string, zip: string, country: string)
    requires Trimmed(street) && ',' !in street
    requires Trimmed(city) && ',' !in city
    requires IsStateCode(state) && IsZipCode(zip)
    requires Trimmed(country) && ',' !in country
    ensures ParseCombinedAddressPd(Some(street + ", " + city + ", " + (state + " " + zip) + ", " + country)) ==
            PdAddress(Some(street), Some(city), Some(state), Some(zip), Some(country))
  {
    hide ParseCombinedAddressPd, StateZipCountry, StateAndZip, Strip;
    var line := state + " " + zip;
    StateLineShape(state, zip);
    var s := street + ", " + city + ", " + line + ", " + country;
    var r1 := " " + city + ", " + line + ", " + country;
    var r2 := " " + line + ", " + country;
    StreetComma(street, city, line, country);
    CityComma(city, line, country);
    LastCommaCountry(line, country);
    StateLineZip(state, zip);
    ParsePdSplit(s, street, r1, " " + city, r2);
    StripNoSpace(street);
    StripAfterBlank(city);
  }

  /** The first comma of the layout is the one after the street. */
  lemma StreetComma(street: string, city: string, line: string, country: string)
    requires ',' !in street
    ensures SplitOnce(street + ", " + city + ", " + line + ", " + country, ',') ==
            (street, Some(" " + city + ", " + line + ", " + country))
  {
    var r1 := " " + city + ", " + line + ", " + country;
    assert street + ", " + city + ", " + line + ", " + country == street + [','] + r1;
    SplitOnceCons(street, ',', r1);
  }

  /** After the street, the next comma is the one after the city. */
  lemma CityComma(city: string, line: string, country: string)
    requires ',' !in city
    ensures SplitOnce(" " + city + ", " + line + ", " + country, ',') == (" " + city, Some(" " + line + ", " + country))
  {
    var r2 := " " + line + ", " + country;
    assert " " + city + ", " + line + ", " + country == " " + city + [','] + r2;
    NoCommaAfterBlank(city);
    SplitOnceCons(" " + city, ',', r2);
  }

  /** After the blank that follows the city's comma, `"ST zip"` gives the state and the ZIP code. */
  lemma StateLineZip(state: string, zip: string)
    requires IsStateCode(state) && IsZipCode(zip)
    ensures StateAndZip(" " + (state + " " + zip)) == (state, Some(zip))
  {
    var sz := " " + (state + " " + zip);
    ZipAfterState(state, zip);
    assert Trimmed(state);
    BlanksAround(state);
    assert StateAndZip(sz) == (Strip(sz[..4]), Some(sz[4..4 + |zip|]));
  }

  lemma BlanksAround(x: string)
    requires Trimmed(x)
    ensures Strip(" " + x + " ") == x
  {
    StripPadded(" ", x, " ");
    StripNoSpace(x);
  }

  lemma LastCommaCountry(line: string, country: string)
    requires ',' !in line && ',' !in country && Trimmed(country)
    ensures StateZipCountry(" " + line + ", " + country) == (" " + line, Some(country))
  {
    var r2 := " " + line + ", " + country;
    assert r2 == " " + line + [','] + (" " + country);
    assert r2[|line| + 1] == ',';
    NoCommaAfterBlank(country);
    SplitLastCons(" " + line, ',', " " + country);
    StripAfterBlank(country);
  }

  lemma ZipAfterState(state: string, zip: string)
    requires IsStateCode(state) && IsZipCode(zip)
    ensures FindZip(" " + (state + " " + zip), 0) == Some((4, |zip|))
    ensures (" " + (state + " " + zip))[..4] == " " + state + " "
    ensures (" " + (state + " " + zip))[4..4 + |zip|] == zip
  {
    var p := " " + state + " ";
    assert " " + (state + " " + zip) == p + zip;
    assert forall k | 0 <= k < |p| :: !IsDigit(p[k]);
    ZipAfter(p, zip);
  }

  /**
   * On that layout the two variants agree on street, state and ZIP code; the city agrees
   * when it fits its 99 characters; the country is written one here and "USA" row by row.
   */
  lemma AddressVariantsOnUsLayout(street: string, city: string, state: string, zip: string, country: string)
    requires Trimmed(street) && |street| <= 250 && ',' !in street
    requires Trimmed(city) && |city| <= 99 && ',' !in city
    requires IsStateCode(state) && IsZipCode(zip)
    requires Trimmed(country) && ',' !in country
    ensures var a := street + ", " + city + ", " + (state + " " + zip) + ", " + country;
      var row, pd := ParseAddress(a), ParseCombinedAddressPd(Some(a));
      Some(row.street) == pd.street && Some(row.city) == pd.city && row.state == pd.state &&
      Some(row.zip) == pd.zip && row.country == "USA" && pd.country == Some(country)
  {
    ParseAddressUsLayout(street, city, state, zip, country);
    ParseCombinedAddressPdUsLayout(street, city, state, zip, country);
    TakeShort(city, 99);
  }

  /** The address the parser is written for. */
  lemma ParseCombinedAddressPdExample()
    ensures ParseCombinedAddressPd(Some("123 Main St" + ", " + "Springfield" + ", " + ("IL" + " " + "62704") + ", " + "USA")) ==
            PdAddress(Some("123 Main St"), Some("Springfield"), Some("IL"), Some("62704"), Some("USA"))
  {
    ParseCombinedAddressPdUsLayout("123 Main St", "Springfield", "IL", "62704", "USA");
  }

  // ---------------------------------------------------------------- the stored address

  /** `value or default`: a null or empty field takes the default. */
  function OrDefault(v: Option<string>, default: string): (r: string)
    ensures default != [] ==> r != []
    ensures v.Some? && v.value != [] ==> r == v.value
  {
    if v.Some? && v.value != [] then v.value else default
  }

  /** The stored ZIP code is a ZIP code, the placeholder included. */
  lemma StoredZipIsZip(address: Option<string>)
    ensures IsZipCode(OrDefault(ParseCombinedAddressPd(address).zip, PlaceholderZip))
  {
    assert IsZipCode(PlaceholderZip);
  }
}
