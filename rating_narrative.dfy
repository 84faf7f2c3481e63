/** The narrative formatter of the deal-audit route: the nine sections of the
    model's narrative, each replaced by a fixed text when it is missing,
    falsy or the placeholder "none". */
module RatingNarrative {
  import opened Wrappers
  import opened PyStr
  import opened Json
  import opened NarrativeSections

  // ===========================================================================
  // Narrative formatter

  /** A value whose text, stripped and lower-cased, is "none". Only strings
      can be: `str` of a number, a boolean, a list or a dict never reads so. */
  predicate IsNonePlaceholder(v: Value) {
    v.Str? && Lower(Strip(v.s)) == "none"
  }

  /** The test of `get_field`: the model's value is kept when it is truthy
      and is not the placeholder "none". */
  predicate Usable(v: Value) {
    Truthy(v) && !IsNonePlaceholder(v)
  }

  /** `get_field(key, fallback)`. */
  function GetField(data: map<string, Value>, key: string, fallback: string): (r: Value)
    ensures (r == Get(data, key) && Usable(r)) || r == Str(fallback)
    ensures Usable(Get(data, key)) ==> r == Get(data, key)
  {
    var value := Get(data, key);
    if Usable(value) then value else Str(fallback)
  }

  /** A text with a character that is neither whitespace nor a letter of
      "none" in its opening part can never strip and lower to "none". */
  lemma {:induction false} NotPlaceholderWitness(lead: string, rest: string, i: nat)
    requires i < |lead| && !IsSpace(lead[i]) && LowerChar(lead[i]) !in "noe"
    ensures Usable(Str(lead + rest))
  {
    var s := lead + rest;
    assert s[i] == lead[i];
    StripKeepsNonSpace(s, i);
    var j :| 0 <= j < |Strip(s)| && Strip(s)[j] == s[i];
    assert Lower(Strip(s))[j] == LowerChar(s[i]);
  }

  /** The position, in the opening word of a fallback, of a character that
      is neither whitespace nor a letter of "none". */
  function WitnessIndex(s: Section): nat {
    match s
    case TrustScoreSummary => 3
    case MarketComparison => 3
    case LeaseAudit => 1
    case _ => 0
  }

  lemma WitnessInLead(s: Section)
    ensures WitnessIndex(s) < |FallbackLead(s)|
    ensures !IsSpace(FallbackLead(s)[WitnessIndex(s)])
    ensures LowerChar(FallbackLead(s)[WitnessIndex(s)]) !in "noe"
  {
  }

  /** Every fallback text is itself usable: non-empty and not "none". */
  lemma FallbackIsUsable(s: Section)
    ensures Usable(Str(Fallback(s)))
  {
    WitnessInLead(s);
    NotPlaceholderWitness(FallbackLead(s), FallbackRest(s), WitnessIndex(s));
  }

  /** `format_narrative`: a map with exactly the nine section keys. (Its
      `normalized_pricing` argument is never read and is not modelled.) */
  function FormatNarrative(data: map<string, Value>): (r: map<string, Value>)
    ensures r.Keys == NarrativeKeys
  {
    forall k ensures SectionOf(k).Some? <==> k in NarrativeKeys {
      SectionOfNarrativeKey(k);
    }
    map k | k in NarrativeKeys && SectionOf(k).Some? :: GetField(data, k, Fallback(SectionOf(k).value))
  }

  /** Each section of the formatted narrative holds the model's value when
      that is usable and the section's fallback otherwise. */
  lemma FormatNarrativeSection(data: map<string, Value>, s: Section)
    ensures SectionKey(s) in FormatNarrative(data)
    ensures FormatNarrative(data)[SectionKey(s)]
         == if Usable(Get(data, SectionKey(s))) then data[SectionKey(s)] else Str(Fallback(s))
  {
    SectionKeyIsNarrativeKey(s);
    FormatNarrativeLookup(data, s);
  }

  lemma FormatNarrativeLookup(data: map<string, Value>, s: Section)
    requires SectionKey(s) in FormatNarrative(data)
    ensures FormatNarrative(data)[SectionKey(s)] == GetField(data, SectionKey(s), Fallback(s))
  {
    SectionOfKey(s);
  }

  /** No section of a formatted narrative is empty or "none". */
  lemma FormatNarrativeIsUsable(data: map<string, Value>, s: Section)
    ensures SectionKey(s) in FormatNarrative(data)
    ensures Usable(FormatNarrative(data)[SectionKey(s)])
  {
    FormatNarrativeSection(data, s);
    FallbackIsUsable(s);
  }

  /** Formatting a formatted narrative changes nothing. */
  lemma FormatNarrativeIdempotent(data: map<string, Value>)
    ensures FormatNarrative(FormatNarrative(data)) == FormatNarrative(data)
  {
    var once := FormatNarrative(data);
    var twice := FormatNarrative(once);
    forall k | k in twice ensures twice[k] == once[k] {
      var s :| s in AllSections && SectionKey(s) == k;
      FormatNarrativeIsUsable(data, s);
      FormatNarrativeSection(once, s);
    }
  }

  /** A section the model sent as "None" gets its fallback. */
  lemma FormatNarrativeExample()
    ensures FormatNarrative(map["vehicle_overview" := Str("None")])[SectionKey(VehicleOverview)]
         == Str(Fallback(VehicleOverview))
  {
    var d := map["vehicle_overview" := Str("None")];
    assert Strip("None") == "None" by { StripOfTrimmed("None"); }
    assert Lower("None") == "none";
    assert !Usable(Get(d, SectionKey(VehicleOverview)));
  }

}
