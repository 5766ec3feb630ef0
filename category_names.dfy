/** `normalize_category_name` of the row-by-row migration. */
module CategoryNames {

  import opened Options
  import opened Text

  /** `normalize_category_name`: surrounding whitespace dropped, first letter upper case, the rest lower case. */
  function NormalizeCategoryName(name: Option<string>): string
  {
    if name.None? || name.value == [] then "Unknown" else Capitalize(Strip(name.value))
  }

  /**
   * A missing or empty name is "Unknown"; any other name keeps its letters up to case, loses
   * its surrounding whitespace, and comes out with no lower-case first letter and no
   * upper-case letter after it.
   */
  lemma NormalizeCategoryShape(name: Option<string>)
    ensures name.None? || name.value == [] ==> NormalizeCategoryName(name) == "Unknown"
    ensures name.Some? && name.value != [] ==>
      Lower(NormalizeCategoryName(name)) == Lower(Strip(name.value))
    ensures NormalizeCategoryName(name) != [] ==> !IsLower(NormalizeCategoryName(name)[0])
    ensures forall i | 1 <= i < |NormalizeCategoryName(name)| :: !IsUpper(NormalizeCategoryName(name)[i])
  {
    if name.None? || name.value == [] {
      assert !IsLower("Unknown"[0]);
      LowerTail2();
    }
  }

  lemma LowerTail2()
    ensures forall i | 1 <= i < |"Unknown"| :: !IsUpper("Unknown"[i])
  {
  }

  /** Two present names normalize alike exactly when they agree up to case and surrounding whitespace. */
  lemma NormalizeCategorySameIff(a: string, b: string)
    requires a != [] && b != []
    ensures NormalizeCategoryName(Some(a)) == NormalizeCategoryName(Some(b)) <==>
            Lower(Strip(a)) == Lower(Strip(b))
  {
    CapitalizeSameIff(Strip(a), Strip(b));
  }

  /** A normalized name that is not empty normalizes to itself. */
  lemma NormalizeCategoryIdempotent(name: Option<string>)
    requires NormalizeCategoryName(name) != []
    ensures NormalizeCategoryName(Some(NormalizeCategoryName(name))) == NormalizeCategoryName(name)
  {
    if name.Some? && name.value != [] {
      assert Strip(name.value) != [];
      PresentFixed(name.value);
    } else {
      UnknownFixed();
    }
  }

  lemma PresentFixed(v: string)
    requires v != [] && Strip(v) != []
    ensures NormalizeCategoryName(Some(NormalizeCategoryName(Some(v)))) == NormalizeCategoryName(Some(v))
  {
    var n := NormalizeCategoryName(Some(v));
    var s := Strip(v);
    assert n == Capitalize(s) by {
      PresentName(v);
    }
    assert Capitalize(Strip(n)) == n by {
      CapitalizedFixed(s);
    }
    assert NormalizeCategoryName(Some(n)) == n by {
      PresentName(n);
    }
  }

  lemma PresentName(name: string)
    requires name != []
    ensures NormalizeCategoryName(Some(name)) == Capitalize(Strip(name))
  {
  }

  lemma CapitalizedFixed(s: string)
    requires s != [] && !IsSpace(s[0]) && !IsSpace(s[|s| - 1])
    ensures Capitalize(Strip(Capitalize(s))) == Capitalize(s)
  {
    var n := Capitalize(s);
    CapitalizeSpaces(s);
    assert Strip(n) == n by {
      StripLeftNoSpace(n);
      StripRightNoSpace(n);
    }
    CapitalizeIdempotent(s);
  }

  lemma UnknownFixed()
    ensures NormalizeCategoryName(Some(NormalizeCategoryName(None))) == NormalizeCategoryName(None)
  {
    assert NormalizeCategoryName(Some("Unknown")) == "Unknown" by {
      assert Capitalize(Strip("Unknown")) == "Unknown" by {
        UnknownCapitalized();
      }
    }
  }

  lemma UnknownCapitalized()
    ensures Capitalize(Strip("Unknown")) == "Unknown"
  {
    StripLeftNoSpace("Unknown");
    StripRightNoSpace("Unknown");
    assert Lower("nknown") == "nknown";
  }

  /** A name of whitespace only is present but normalizes to the empty name, not to "Unknown". */
  lemma NormalizeBlankCategory(name: string)
    requires name != [] && AllSpace(name)
    ensures NormalizeCategoryName(Some(name)) == []
  {
  }

  /** A lower-case legacy spelling gets its first letter capitalized. */
  lemma NormalizeCategoryExample()
    ensures NormalizeCategoryName(Some("electronics")) == "Electronics"
  {
    StripLowerWord();
    CapitalizeLowerWord();
  }

  lemma StripLowerWord()
    ensures Strip("electronics") == "electronics"
  {
    StripLeftNoSpace("electronics");
    StripRightNoSpace("electronics");
  }

  lemma CapitalizeLowerWord()
    ensures Capitalize("electronics") == "Electronics"
  {
    assert "electronics"[1..] == "lectronics";
    LowerTail();
  }

  lemma LowerTail()
    ensures Lower("lectronics") == "lectronics"
  {
  }

  /** An upper-case spelling with surrounding blanks falls into the same category. */
  lemma NormalizeCategoryPaddedExample()
    ensures NormalizeCategoryName(Some(" " + "ELECTRONICS" + " ")) == NormalizeCategoryName(Some("electronics"))
  {
    PaddedUpperWord();
    NormalizeCategoryExample();
  }

  lemma PaddedUpperWord()
    ensures NormalizeCategoryName(Some(" " + "ELECTRONICS" + " ")) == "Electronics"
  {
    var t := " " + "ELECTRONICS" + " ";
    assert NormalizeCategoryName(Some(t)) == Capitalize(Strip(t)) by {
      PresentName(t);
    }
    StripPaddedWord();
    CapitalizeUpperWord();
  }

  lemma CapitalizeUpperWord()
    ensures Capitalize("ELECTRONICS") == "Electronics"
  {
    assert "ELECTRONICS"[1..] == "LECTRONICS";
    LowerUpperTail();
  }

  lemma StripPaddedWord()
    ensures Strip(" " + "ELECTRONICS" + " ") == "ELECTRONICS"
  {
    assert Strip(" " + "ELECTRONICS" + " ") == Strip("ELECTRONICS") by {
      StripPadded(" ", "ELECTRONICS", " ");
    }
    StripUpperWord();
  }

  lemma StripUpperWord()
    ensures Strip("ELECTRONICS") == "ELECTRONICS"
  {
    StripLeftNoSpace("ELECTRONICS");
    StripRightNoSpace("ELECTRONICS");
  }

  lemma LowerUpperTail()
    ensures Lower("LECTRONICS") == "lectronics"
  {
  }
}
