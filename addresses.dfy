/**
 * `parse_address` of the row-by-row migration: a combined legacy address such as
 * `"123 Main St, Springfield, IL 62704, USA"` cut at its commas, a US ZIP code and a
 * two-letter state looked for in the segment before the last, every field cleaned and
 * truncated to its column width.
 *
 * The two regular expressions are modelled by what they match: `\b\d{5}(?:-\d{4})?\b` and
 * `\b([A-Z]{2})\b`, searched leftmost-first, with `\b` and `\d` over ASCII characters.
 */
module Addresses {

  import opened Options
  import opened Text

  /** The five keys of the parsed address; the state is the only one that may be `None`. */
  datatype Address = Address(street: string, city: string, state: Option<string>, zip: string, country: string)

  const NotAvailable: string := "N/A"

  // ---------------------------------------------------------------- the two patterns

  /** A regular-expression word boundary `\b` before position `i`. */
  predicate IsBoundary(s: string, i: nat)
    requires i <= |s|
  {
    (i > 0 && IsWordChar(s[i - 1])) != (i < |s| && IsWordChar(s[i]))
  }

  /** `n` decimal digits start at position `i`. */
  predicate DigitsAt(s: string, i: nat, n: nat) {
    i + n <= |s| && forall k | i <= k < i + n :: IsDigit(s[k])
  }

  /** Five digits, or five digits, a dash and four digits. */
  predicate IsZipCode(z: string) {
    (|z| == 5 || |z| == 10) &&
    (forall k | 0 <= k < |z| && k != 5 :: IsDigit(z[k])) &&
    (|z| == 10 ==> z[5] == '-')
  }

  /** Two upper-case letters. */
  predicate IsStateCode(s: string) {
    |s| == 2 && IsUpper(s[0]) && IsUpper(s[1])
  }

  /**
   * The length of the match of `\b\d{5}(?:-\d{4})?\b` at position `i`, 0 for none. The
   * optional group is tried first; when the boundary after it fails, the match falls back
   * to the five digits alone.
   */
  function ZipLengthAt(s: string, i: nat): (n: nat)
    requires i <= |s|
    ensures n == 0 || n == 5 || n == 10
    ensures n > 0 ==> i + n <= |s| && IsZipCode(s[i..i + n])
  {
    if IsBoundary(s, i) && DigitsAt(s, i, 5) then
      if DigitsAt(s, i + 6, 4) && s[i + 5] == '-' && IsBoundary(s, i + 10) then
        var z := s[i..i + 10];
        assert forall k | 0 <= k < 10 :: z[k] == s[i + k];
        10
      else if IsBoundary(s, i + 5) then
        var z := s[i..i + 5];
        assert forall k | 0 <= k < 5 :: z[k] == s[i + k];
        5
      else 0
    else 0
  }

  /** Leftmost position at or after `i` where the ZIP pattern matches, with the match length. */
  function FindZip(s: string, i: nat): (r: Option<(nat, nat)>)
    requires i <= |s|
    ensures r.Some? ==> i <= r.value.0 <= |s| && r.value.1 == ZipLengthAt(s, r.value.0) > 0
    ensures r.Some? ==> forall k | i <= k < r.value.0 :: ZipLengthAt(s, k) == 0
    ensures r.None? ==> forall k | i <= k <= |s| :: ZipLengthAt(s, k) == 0
    decreases |s| - i
  {
    var n := ZipLengthAt(s, i);
    if n > 0 then Some((i, n))
    else if i == |s| then None
    else FindZip(s, i + 1)
  }

  /** `re.search(r'\b\d{5}(?:-\d{4})?\b', s).group(0)`, or `None` when nothing matches. */
  function SearchZip(s: string): (r: Option<string>)
    ensures r.Some? ==> IsZipCode(r.value)
  {
    match FindZip(s, 0)
    case None => None
    case Some((i, n)) => Some(s[i..i + n])
  }

  /** The pattern `\b([A-Z]{2})\b` matches at position `i`. */
  predicate StateAt(s: string, i: nat)
    requires i <= |s|
  {
    i + 2 <= |s| && IsBoundary(s, i) && IsUpper(s[i]) && IsUpper(s[i + 1]) && IsBoundary(s, i + 2)
  }

  /** Leftmost position at or after `i` where the state pattern matches. */
  function FindState(s: string, i: nat): (r: Option<nat>)
    requires i <= |s|
    ensures r.Some? ==> i <= r.value <= |s| && StateAt(s, r.value)
    ensures r.Some? ==> forall k | i <= k < r.value :: !StateAt(s, k)
    ensures r.None? ==> forall k | i <= k <= |s| :: !StateAt(s, k)
    decreases |s| - i
  {
    if StateAt(s, i) then Some(i)
    else if i == |s| then None
    else FindState(s, i + 1)
  }

  /** `re.search(r'\b([A-Z]{2})\b', s).group(1)`, or `None` when nothing matches. */
  function SearchState(s: string): (r: Option<string>)
    ensures r.Some? ==> IsStateCode(r.value)
  {
    match FindState(s, 0)
    case None => None
    case Some(i) => Some(s[i..i + 2])
  }

  // ---------------------------------------------------------------- the heuristic

  /** The comma-separated segments, each stripped. */
  function Segments(address: string): (parts: seq<string>)
    ensures |parts| >= 1
  {
    StripEach(Split(address, ','))
  }

  /** Splitting on commas and stripping the pieces leaves no comma in any segment. */
  lemma SegmentsWithoutComma(address: string)
    ensures forall k | 0 <= k < |Segments(address)| :: ',' !in Segments(address)[k]
  {
    var raw := Split(address, ',');
    forall k | 0 <= k < |raw|
      ensures ',' !in StripEach(raw)[k]
    {
      StripEachAt(raw, k);
      StripKeeps(raw[k], ',');
    }
  }

  /** `[p.strip() for p in raw]`. */
  function StripEach(raw: seq<string>): (r: seq<string>)
    ensures |r| == |raw|
    decreases |raw|
  {
    if raw == [] then [] else [Strip(raw[0])] + StripEach(raw[1..])
  }

  lemma {:induction false} StripEachAt(raw: seq<string>, k: nat)
    requires k < |raw|
    ensures StripEach(raw)[k] == Strip(raw[k])
    decreases k
  {
    if k > 0 {
      StripEachAt(raw[1..], k - 1);
    }
  }

  /**
   * The fields before cleaning. The street is the first segment. With more than one segment,
   * the segment before the last (the last when there are two) is searched for a ZIP code;
   * with a ZIP, the ZIP is cut out and a state looked for in what remains, the rest being
   * the city; without one, that segment is the city and the last segment the country.
   */
  function Guess(parts: seq<string>): Address
    requires |parts| >= 1
  {
    var street := parts[0];
    if |parts| == 1 then Address(street, NotAvailable, Some(NotAvailable), NotAvailable, "USA")
    else
      var candidate := if |parts| > 2 then parts[|parts| - 2] else parts[|parts| - 1];
      match SearchZip(candidate)
      case None =>
        Address(street, Strip(RemoveAll(candidate, ',')), Some(NotAvailable), NotAvailable, parts[|parts| - 1])
      case Some(zip) =>
        var rest := Strip(ReplaceAll(candidate, zip, ""));
        match SearchState(rest)
        case None =>
          Address(street, Strip(RemoveAll(rest, ',')), Some(NotAvailable), zip, "USA")
        case Some(state) =>
          Address(street, Strip(RemoveAll(ReplaceAll(rest, state, ""), ',')), Some(state), zip, "USA")
  }

  /** An empty or over-long field becomes "N/A". */
  function CleanField(v: string): string {
    if v == [] || |v| > 250 then NotAvailable else v
  }

  /** An empty or over-long state becomes `None`. */
  function CleanState(v: Option<string>): Option<string> {
    if v.None? || v.value == [] || |v.value| > 250 then None else v
  }

  /**
   * `parse_address`. An empty text gives "N/A" everywhere, the state included. Otherwise the
   * guessed fields are cleaned, a city left "N/A" falls back to the second segment as it
   * stands, and each field is cut to its column width.
   */
  function ParseAddress(address: string): Address
  {
    if address == [] then
      Address(NotAvailable, NotAvailable, Some(NotAvailable), NotAvailable, NotAvailable)
    else
      var parts := Segments(address);
      var g := Guess(parts);
      var city := CleanField(g.city);
      var city' := if city == NotAvailable && |parts| > 1 then parts[1] else city;
      var state := CleanState(g.state);
      Address(
        Take(CleanField(g.street), 254),
        Take(city', 99),
        if state.Some? then Some(Take(state.value, 99)) else None,
        Take(CleanField(g.zip), 19),
        Take(CleanField(g.country), 99))
  }

  /** The check before an address row is written: some field other than the state is not "N/A". */
  predicate HasUsableField(a: Address) {
    a.street != NotAvailable || a.city != NotAvailable || a.zip != NotAvailable || a.country != NotAvailable
  }

  // ---------------------------------------------------------------- properties

  lemma TakeShort(s: string, n: nat)
    requires |s| <= n
    ensures Take(s, n) == s
  {
  }

  /** The state guessed is "N/A" or a state code; the ZIP guessed is "N/A" or a ZIP code. */
  lemma GuessShape(parts: seq<string>)
    requires |parts| >= 1
    ensures Guess(parts).state == Some(NotAvailable) || (Guess(parts).state.Some? && IsStateCode(Guess(parts).state.value))
    ensures Guess(parts).zip == NotAvailable || IsZipCode(Guess(parts).zip)
    ensures IsZipCode(Guess(parts).zip) ==> Guess(parts).country == "USA"
  {
  }

  /**
   * Every field fits its column: street 254 characters, city, state and country 99, ZIP 19.
   * The ZIP is "N/A" or a ZIP code, and the state is "N/A" or a two-letter code, so it is never
   * missing.
   */
  lemma ParseAddressShape(address: string)
    ensures |ParseAddress(address).street| <= 254
    ensures |ParseAddress(address).city| <= 99
    ensures |ParseAddress(address).zip| <= 19
    ensures |ParseAddress(address).country| <= 99
    ensures ParseAddress(address).zip == NotAvailable || IsZipCode(ParseAddress(address).zip)
    ensures ParseAddress(address).state == Some(NotAvailable) ||
            (ParseAddress(address).state.Some? && IsStateCode(ParseAddress(address).state.value))
  {
    ParseAddressWidths(address);
    ParseAddressCodes(address);
  }

  lemma ParseAddressWidths(address: string)
    ensures |ParseAddress(address).street| <= 254
    ensures |ParseAddress(address).city| <= 99
    ensures |ParseAddress(address).zip| <= 19
    ensures |ParseAddress(address).country| <= 99
  {
  }

  lemma ParseAddressCodes(address: string)
    ensures ParseAddress(address).zip == NotAvailable || IsZipCode(ParseAddress(address).zip)
    ensures ParseAddress(address).state == Some(NotAvailable) ||
            (ParseAddress(address).state.Some? && IsStateCode(ParseAddress(address).state.value))
  {
    if address != [] {
      var parts := Segments(address);
      var g := Guess(parts);
      GuessShape(parts);
      TakeShort(CleanField(g.zip), 19);
      assert CleanState(g.state) == g.state;
      TakeShort(g.state.value, 99);
    }
  }

  /** A ZIP code that is found makes the country "USA", whatever the last segment says. */
  lemma ZipMeansUsa(address: string)
    ensures IsZipCode(ParseAddress(address).zip) ==> ParseAddress(address).country == "USA"
  {
    if address != [] {
      var g := Guess(Segments(address));
      GuessShape(Segments(address));
      TakeShort(CleanField(g.zip), 19);
      if IsZipCode(ParseAddress(address).zip) {
        assert IsZipCode(g.zip);
        TakeShort("USA", 99);
      }
    }
  }

  /** An empty text gives "N/A" in every field. */
  lemma ParseAddressEmpty()
    ensures ParseAddress([]) == Address(NotAvailable, NotAvailable, Some(NotAvailable), NotAvailable, NotAvailable)
  {
  }

  /**
   * A text without commas is all street: stripped, or "N/A" when blank or longer than 250
   * characters. The city is "N/A", the country "USA".
   */
  lemma ParseAddressWithoutComma(address: string)
    requires address != [] && ',' !in address
    ensures ParseAddress(address) ==
      Address(CleanField(Strip(address)), NotAvailable, Some(NotAvailable), NotAvailable, "USA")
  {
    SplitAbsent(address, ',');
    var parts := Segments(address);
    assert parts == [Strip(address)];
    TakeShort(CleanField(Strip(address)), 254);
    TakeShort(NotAvailable, 99);
    TakeShort(NotAvailable, 19);
    TakeShort("USA", 99);
  }

  // ---------------------------------------------------------------- the US layout

  /** Not empty, and no whitespace at either end. */
  predicate Trimmed(x: string) {
    x != [] && !IsSpace(x[0]) && !IsSpace(x[|x| - 1])
  }

  /**
   * The layout the heuristic is written for, `"street, city, ST zip, country"`: the street
   * and the ZIP code are read as they stand, the state is the two letters, the city is the
   * second segment (the state line leaves nothing of a city once the state and ZIP are cut
   * out, so the fallback supplies it), and the country is "USA" whatever was written.
   */
  lemma ParseAddressUsLayout(street: string, city: string, state: string, zip: string, country: string)
    requires Trimmed(street) && |street| <= 250 && ',' !in street
    requires Trimmed(city) && ',' !in city
    requires IsStateCode(state) && IsZipCode(zip)
    requires ',' !in country
    ensures ParseAddress(street + ", " + city + ", " + (state + " " + zip) + ", " + country) ==
            Address(street, Take(city, 99), Some(state), zip, "USA")
  {
    var address := street + ", " + city + ", " + (state + " " + zip) + ", " + country;
    var parts := Segments(address);
    assert |parts| == 4 && parts[0] == street && parts[1] == city && parts[2] == state + " " + zip by {
      StateLineShape(state, zip);
      SegmentsOfFour(street, city, state + " " + zip, country);
    }
    assert Guess(parts) == Address(street, [], Some(state), zip, "USA") by {
      GuessStateLine(parts, state, zip);
    }
    ParseUsGuess(address, parts, state, zip);
  }

  lemma ParseUsGuess(address: string, parts: seq<string>, state: string, zip: string)
    requires address != [] && parts == Segments(address) && |parts| > 1
    requires Guess(parts) == Address(parts[0], [], Some(state), zip, "USA")
    requires parts[0] != [] && |parts[0]| <= 250
    requires IsStateCode(state) && IsZipCode(zip)
    ensures ParseAddress(address) == Address(parts[0], Take(parts[1], 99), Some(state), zip, "USA")
  {
    TakeShort(parts[0], 254);
    TakeShort(zip, 19);
    TakeShort(state, 99);
    TakeShort("USA", 99);
  }

  lemma StateLineShape(state: string, zip: string)
    requires IsStateCode(state) && IsZipCode(zip)
    ensures Trimmed(state + " " + zip) && ',' !in state + " " + zip
  {
    var line := state + " " + zip;
    assert line[0] == state[0] && line[|line| - 1] == zip[|zip| - 1];
    assert forall k | 0 <= k < |line| :: line[k] == if k < 2 then state[k] else if k == 2 then ' ' else zip[k - 3];
  }

  /** The segments of four comma-separated fields, written with a blank after each comma. */
  lemma SegmentsOfFour(a: string, b: string, c: string, d: string)
    requires ',' !in a && ',' !in b && ',' !in c && ',' !in d
    requires Trimmed(a) && Trimmed(b) && Trimmed(c)
    ensures |Segments(a + ", " + b + ", " + c + ", " + d)| == 4
    ensures Segments(a + ", " + b + ", " + c + ", " + d)[0] == a
    ensures Segments(a + ", " + b + ", " + c + ", " + d)[1] == b
    ensures Segments(a + ", " + b + ", " + c + ", " + d)[2] == c
  {
    SplitOfFour(a, b, c, d);
    SegmentsOfRaw(a + ", " + b + ", " + c + ", " + d, a, b, c, d);
  }

  lemma SegmentsOfRaw(x: string, a: string, b: string, c: string, d: string)
    requires Split(x, ',') == [a, " " + b, " " + c, " " + d]
    requires Trimmed(a) && Trimmed(b) && Trimmed(c)
    ensures |Segments(x)| == 4
    ensures Segments(x)[0] == a && Segments(x)[1] == b && Segments(x)[2] == c
  {
    var raw := Split(x, ',');
    StripEachAt(raw, 0);
    StripEachAt(raw, 1);
    StripEachAt(raw, 2);
    StripThree(raw, a, b, c);
  }

  lemma StripThree(raw: seq<string>, a: string, b: string, c: string)
    requires |raw| >= 3 && raw[0] == a && raw[1] == " " + b && raw[2] == " " + c
    requires Trimmed(a) && Trimmed(b) && Trimmed(c)
    ensures Strip(raw[0]) == a && Strip(raw[1]) == b && Strip(raw[2]) == c
  {
    StripNoSpace(a);
    StripAfterBlank(b);
    StripAfterBlank(c);
  }

  lemma SplitOfFour(a: string, b: string, c: string, d: string)
    requires ',' !in a && ',' !in b && ',' !in c && ',' !in d
    ensures Split(a + ", " + b + ", " + c + ", " + d, ',') == [a, " " + b, " " + c, " " + d]
  {
    Regroup(a, b, c, d);
    NoCommaAfterBlank(b);
    NoCommaAfterBlank(c);
    NoCommaAfterBlank(d);
    SplitFour(a, " " + b, " " + c, " " + d);
  }

  lemma Regroup(a: string, b: string, c: string, d: string)
    ensures a + ", " + b + ", " + c + ", " + d == a + [','] + (" " + b + [','] + (" " + c + [','] + (" " + d)))
  {
  }

  lemma NoCommaAfterBlank(x: string)
    requires ',' !in x
    ensures ',' !in " " + x
  {
    assert forall k | 1 <= k < |" " + x| :: (" " + x)[k] == x[k - 1];
  }

  lemma SplitFour(a: string, b: string, c: string, d: string)
    requires ',' !in a && ',' !in b && ',' !in c && ',' !in d
    ensures Split(a + [','] + (b + [','] + (c + [','] + d)), ',') == [a, b, c, d]
  {
    SplitAbsent(d, ',');
    SplitCons(c, ',', d);
    SplitCons(b, ',', c + [','] + d);
    SplitCons(a, ',', b + [','] + (c + [','] + d));
  }

  lemma StripAfterBlank(x: string)
    requires Trimmed(x)
    ensures Strip(" " + x) == x
  {
    assert " " + x == " " + x + [];
    StripPadded(" ", x, []);
    StripNoSpace(x);
  }

  /** On a state line the ZIP code is found, the state read from what is left, and no city remains. */
  lemma GuessStateLine(parts: seq<string>, state: string, zip: string)
    requires |parts| == 4 && parts[2] == state + " " + zip
    requires IsStateCode(state) && IsZipCode(zip)
    ensures Guess(parts) == Address(parts[0], [], Some(state), zip, "USA")
  {
    hide Guess, SearchZip, SearchState, Strip, ReplaceAll;
    var line := state + " " + zip;
    assert SearchZip(line) == Some(zip) by {
      ZipOnStateLine(state, zip);
    }
    assert Strip(ReplaceAll(line, zip, [])) == state by {
      CutZip(state, zip);
      assert Trimmed(state);
      TrailingBlank(state);
    }
    assert SearchState(state) == Some(state) by {
      StateAlone(state);
    }
    assert Strip(RemoveAll(ReplaceAll(state, state, []), ',')) == [] by {
      ReplaceWhole(state, []);
    }
    GuessZipState(parts, zip, state);
  }

  /** The fields guessed when the ZIP code and then the state are found. */
  lemma GuessZipState(parts: seq<string>, zip: string, state: string)
    requires |parts| > 2
    requires SearchZip(parts[|parts| - 2]) == Some(zip)
    requires SearchState(Strip(ReplaceAll(parts[|parts| - 2], zip, []))) == Some(state)
    ensures Guess(parts) ==
      Address(parts[0], Strip(RemoveAll(ReplaceAll(Strip(ReplaceAll(parts[|parts| - 2], zip, [])), state, []), ',')),
              Some(state), zip, "USA")
  {
  }

  lemma TrailingBlank(x: string)
    requires Trimmed(x)
    ensures Strip(x + " ") == x
  {
    assert x + " " == [] + x + " ";
    StripPadded([], x, " ");
    StripNoSpace(x);
  }

  lemma StateAlone(state: string)
    requires IsStateCode(state)
    ensures SearchState(state) == Some(state)
  {
    assert StateAt(state, 0);
    assert state[0..2] == state;
  }

  lemma ZipOnStateLine(state: string, zip: string)
    requires IsStateCode(state) && IsZipCode(zip)
    ensures SearchZip(state + " " + zip) == Some(zip)
  {
    ZipAfter(state + " ", zip);
  }

  /** A ZIP code after a text with no digit that ends in a non-word character is the first match. */
  lemma ZipAfter(p: string, zip: string)
    requires IsZipCode(zip) && p != [] && !IsWordChar(p[|p| - 1])
    requires forall k | 0 <= k < |p| :: !IsDigit(p[k])
    ensures FindZip(p + zip, 0) == Some((|p|, |zip|))
    ensures SearchZip(p + zip) == Some(zip)
  {
    var s := p + zip;
    assert forall k | 0 <= k < |p| :: ZipLengthAt(s, k) == 0 by {
      assert forall k | 0 <= k < |p| :: s[k] == p[k];
    }
    assert forall k | 0 <= k < |zip| :: s[|p| + k] == zip[k];
    var i := |p|;
    assert ZipLengthAt(s, i) == |zip| by {
      assert IsBoundary(s, i) && DigitsAt(s, i, 5);
      if |zip| == 10 {
        assert DigitsAt(s, i + 6, 4) && s[i + 5] == '-' && IsBoundary(s, i + 10);
      } else {
        assert IsBoundary(s, i + 5);
      }
    }
    FindZipFrom(s, 0, i);
    assert s[i..i + |zip|] == zip;
  }

  /** The search from `k` stops at the first match. */
  lemma {:induction false} FindZipFrom(s: string, k: nat, m: nat)
    requires k <= m <= |s| && ZipLengthAt(s, m) > 0
    requires forall j | k <= j < m :: ZipLengthAt(s, j) == 0
    ensures FindZip(s, k) == Some((m, ZipLengthAt(s, m)))
    decreases m - k
  {
    if k < m {
      FindZipFrom(s, k + 1, m);
    }
  }

  /** Cutting the ZIP code out of a state line leaves the state and the blank. */
  lemma CutZip(state: string, zip: string)
    requires IsStateCode(state) && IsZipCode(zip)
    ensures ReplaceAll(state + " " + zip, zip, []) == state + " "
  {
    var p := state + " ";
    assert forall k | 0 <= k < |p| :: p[k] != zip[0];
    ReplaceAfterPrefix(p, zip, zip, []);
    ReplaceWhole(zip, []);
  }

  /** The address the heuristic is written for. */
  lemma ParseAddressExample()
    ensures ParseAddress("123 Main St" + ", " + "Springfield" + ", " + ("IL" + " " + "62704") + ", " + "USA") ==
            Address("123 Main St", "Springfield", Some("IL"), "62704", "USA")
  {
    ParseAddressUsLayout("123 Main St", "Springfield", "IL", "62704", "USA");
    TakeShort("Springfield", 99);
  }
}
