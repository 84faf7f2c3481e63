/** The nine sections of the deal-audit narrative, the key each has in the
    reply, and the fixed text that stands in for a section the model leaves
    out. */
module NarrativeSections {
  import opened Wrappers

  /** The nine sections of the narrative, in the order the route lists them. */
  datatype Section =
    | VehicleOverview | TrustScoreSummary | MarketComparison | GapLogic | VscLogic
    | AprBonusRule | LeaseAudit | NegotiationInsight | FinalRecommendation

  const AllSections: seq<Section> := [
    VehicleOverview, TrustScoreSummary, MarketComparison, GapLogic, VscLogic,
    AprBonusRule, LeaseAudit, NegotiationInsight, FinalRecommendation
  ]

  /** The key a section has in the model's narrative and in the reply. */
  function SectionKey(s: Section): string {
    match s
    case VehicleOverview => "vehicle_overview"
    case TrustScoreSummary => "trust_score_summary"
    case MarketComparison => "market_comparison"
    case GapLogic => "gap_logic"
    case VscLogic => "vsc_logic"
    case AprBonusRule => "apr_bonus_rule"
    case LeaseAudit => "lease_audit"
    case NegotiationInsight => "negotiation_insight"
    case FinalRecommendation => "final_recommendation"
  }

  /** The fixed text that replaces a section the model leaves out: its
      opening word followed by the rest of the text. */
  function Fallback(s: Section): string {
    FallbackLead(s) + FallbackRest(s)
  }

  function FallbackLead(s: Section): string {
    match s
    case VehicleOverview => "Vehicle"
    case TrustScoreSummary => "No trust"
    case MarketComparison => "No market"
    case GapLogic => "GAP"
    case VscLogic => "VSC"
    case AprBonusRule => "APR"
    case LeaseAudit => " For"
    case NegotiationInsight => "-"
    case FinalRecommendation => "Final"
  }

  function FallbackRest(s: Section): string {
    match s
    case VehicleOverview =>
      " overview information is missing. "
      + "Please include details about the make, "
      + "model, year, mileage, condition, and "
      + "key features of the vehicle."
    case TrustScoreSummary =>
      " score summary provided. Please include "
      + "insights on fairness, transparency, and "
      + "APR context. "
    case MarketComparison =>
      " comparison found. Include pricing "
      + "comparisons for GAP, VSC, and total "
      + "deal structure. "
    case GapLogic =>
      " pricing information is missing. "
      + "However, GAP can be beneficial for "
      + "buyers with high loan-to-value ratios, "
      + "low down payments, or long-term loans. "
      + "Assess buyer risk and discuss coverage "
      + "value."
    case VscLogic =>
      " price data is unavailable. Still, "
      + "extended warranties may be useful for "
      + "buyers planning to keep the car "
      + "long-term or purchasing a vehicle with "
      + "uncertain reliability."
    case AprBonusRule =>
      " data not found. Ensure APR is "
      + "competitive (6.5–9.5% typical). If too "
      + "high, negotiate a rate reduction or "
      + "explore outside financing. "
    case LeaseAudit =>
      " the lease audit section, if the deal "
      + "is a lease, do check the details of the "
      + "lease terms including residual value, "
      + "money factor, lease duration, monthly "
      + "payments, and implications for the "
      + "buyers financial risk and benefits."
    case NegotiationInsight =>
      " **Ask to waive unnecessary fees**  "
      + "\nUse third-party deal comparisons to "
      + "justify fair pricing.\n\n- **Negotiate "
      + "APR and monthly payments**  \nReduce "
      + "long-term costs and improve "
      + "affordability.\n\n- **Request added "
      + "perks**  \nPush for free service, "
      + "accessories, or better warranty "
      + "coverage."
    case FinalRecommendation =>
      " recommendation is missing. Please "
      + "provide a concise summary of key "
      + "findings and next steps for the buyer. "
      + "Minimum 200 words."
  }

  /** Every section is among the nine. */
  lemma AllSectionsComplete(s: Section)
    ensures s in AllSections
  {
  }

  /** The keys of the formatted narrative. */
  const NarrativeKeys: set<string> := set s | s in AllSections :: SectionKey(s)

  lemma SectionKeyIsNarrativeKey(s: Section)
    ensures SectionKey(s) in NarrativeKeys
  {
    AllSectionsComplete(s);
  }

  /** Different sections have different keys. */
  lemma SectionKeyInjective(s: Section, t: Section)
    ensures SectionKey(s) == SectionKey(t) ==> s == t
  {
    if s != t {
      assert |SectionKey(s)| != |SectionKey(t)| || SectionKey(s)[0] != SectionKey(t)[0];
    }
  }

  /** The section a key names, if any. */
  function SectionOf(k: string): (r: Option<Section>)
    ensures r.Some? ==> SectionKey(r.value) == k
  {
    if k == "vehicle_overview" then Some(VehicleOverview)
    else if k == "trust_score_summary" then Some(TrustScoreSummary)
    else if k == "market_comparison" then Some(MarketComparison)
    else if k == "gap_logic" then Some(GapLogic)
    else if k == "vsc_logic" then Some(VscLogic)
    else if k == "apr_bonus_rule" then Some(AprBonusRule)
    else if k == "lease_audit" then Some(LeaseAudit)
    else if k == "negotiation_insight" then Some(NegotiationInsight)
    else if k == "final_recommendation" then Some(FinalRecommendation)
    else None
  }

  /** Looking up a section's key gives back that section. */
  lemma SectionOfKey(s: Section)
    ensures SectionOf(SectionKey(s)) == Some(s)
  {
    SectionKeyInjective(s, SectionOf(SectionKey(s)).value);
  }

  /** Exactly the narrative keys name a section. */
  lemma SectionOfNarrativeKey(k: string)
    ensures SectionOf(k).Some? <==> k in NarrativeKeys
  {
    if SectionOf(k).Some? {
      SectionKeyIsNarrativeKey(SectionOf(k).value);
    }
    if k in NarrativeKeys {
      var s :| s in AllSections && SectionKey(s) == k;
      SectionOfKey(s);
    }
  }
}
