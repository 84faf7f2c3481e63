/** Worked examples of the region classifier. */
module RegionExamples {
  import opened Wrappers
  import opened PyStr
  import opened RatingRegions

  /** "TX" and "tx" are both "South". */
  lemma CategorizeCaseExamples()
    ensures CategorizeRegion(Some("TX")) == "South"
    ensures CategorizeRegion(Some("tx")) == "South"
  {
    MembersGetTheirLabel(('T','X'));
    assert Upper("tx") == "TX";
    StripOfTrimmed("TX");
    CategorizeUsesNormalizedKey("tx", "TX");
  }

  /** Surrounding whitespace is stripped: " TX " is "South". */
  lemma CategorizeSpacedExample()
    ensures CategorizeRegion(Some(" TX ")) == "South"
  {
    MembersGetTheirLabel(('T','X'));
    StripOfTrimmed("TX");
    assert Strip(" TX ") == "TX" by {
      assert LeadingSpaces(" TX ") == 1;
      assert " TX "[1..] == "TX ";
      assert TrailingSpaces("TX ") == 1;
    }
    CategorizeUsesNormalizedKey(" TX ", "TX");
  }

  /** "ny" is "North". */
  lemma CategorizeNorthExample()
    ensures CategorizeRegion(Some("ny")) == "North"
  {
    MembersGetTheirLabel(('N','Y'));
    assert Upper("ny") == "NY";
    StripOfTrimmed("ny");
    StripOfTrimmed("NY");
    CategorizeUsesNormalizedKey("ny", "NY");
  }

  /** "XX" is "East", not "Outside US". */
  lemma CategorizeUnknownExample()
    ensures CategorizeRegion(Some("XX")) == "East"
  {
    KeyOfPlainCode("XX");
    StatesArePatternCodes();
    assert !PatternAccepts(('X','X'));
  }

  /** The whitespace-only " " is "East" as well. */
  lemma CategorizeBlankExample()
    ensures CategorizeRegion(Some(" ")) == "East"
  {
    assert Upper(" ") == " ";
    StripEmptyIffAllSpace(" ");
  }
}
