/** The fields the deal-audit route requires in the rating model's reply:
    their keys, the order in which the route checks them, and which of them
    may be left out. */
module AuditFields {

  datatype Field =
    | Score | BuyerName | LogoText | DealerName | Email | PhoneNumber | Address | State | Region
    | SellingPrice | VinNumber | Date | Badge | BuyerMessage | RedFlags | GreenFlags | BlueFlags
    | NormalizedPricing | Apr | Term | QuoteType | BundleAbuse | Narrative

  /** The required fields, in the order the route checks them. */
  const RequiredFields: seq<Field> := [
    Score, BuyerName, LogoText, DealerName, Email, PhoneNumber, Address, State, Region,
    SellingPrice, VinNumber, Date, Badge, BuyerMessage, RedFlags, GreenFlags, BlueFlags,
    NormalizedPricing, Apr, Term, QuoteType, BundleAbuse, Narrative
  ]

  /** The key of a field in the reply. */
  function FieldKey(f: Field): string {
    match f
    case Score => "score"
    case BuyerName => "buyer_name"
    case LogoText => "logo_text"
    case DealerName => "dealer_name"
    case Email => "email"
    case PhoneNumber => "phone_number"
    case Address => "address"
    case State => "state"
    case Region => "region"
    case SellingPrice => "selling_price"
    case VinNumber => "vin_number"
    case Date => "date"
    case Badge => "badge"
    case BuyerMessage => "buyer_message"
    case RedFlags => "red_flags"
    case GreenFlags => "green_flags"
    case BlueFlags => "blue_flags"
    case NormalizedPricing => "normalized_pricing"
    case Apr => "apr"
    case Term => "term"
    case QuoteType => "quote_type"
    case BundleAbuse => "bundle_abuse"
    case Narrative => "narrative"
  }

  /** The required fields that are set to None, rather than rejected, when
      the model leaves them out. */
  predicate Nullable(f: Field) {
    f == BuyerName || f == DealerName || f == Address || f == State || f == Region
  }

  lemma NarrativeKey()
    ensures FieldKey(Narrative) == "narrative"
  {
  }

  lemma RegionKey()
    ensures FieldKey(Region) == "region"
  {
  }

  /** The position of a field in the list of required fields. */
  function FieldIndex(f: Field): (i: nat)
    ensures i < |RequiredFields| && RequiredFields[i] == f
  {
    match f
    case Score => 0
    case BuyerName => 1
    case LogoText => 2
    case DealerName => 3
    case Email => 4
    case PhoneNumber => 5
    case Address => 6
    case State => 7
    case Region => 8
    case SellingPrice => 9
    case VinNumber => 10
    case Date => 11
    case Badge => 12
    case BuyerMessage => 13
    case RedFlags => 14
    case GreenFlags => 15
    case BlueFlags => 16
    case NormalizedPricing => 17
    case Apr => 18
    case Term => 19
    case QuoteType => 20
    case BundleAbuse => 21
    case Narrative => 22
  }

  /** No field is listed twice. */
  lemma RequiredFieldsDistinct(i: nat, j: nat)
    requires i < j < |RequiredFields|
    ensures RequiredFields[i] != RequiredFields[j]
  {
    IndexOfListed(i);
    IndexOfListed(j);
  }

  /** `FieldIndex` undoes indexing into the list. */
  lemma IndexOfListed(k: nat)
    requires k < |RequiredFields|
    ensures FieldIndex(RequiredFields[k]) == k
  {
    if k < 12 {
      assert FieldIndex(RequiredFields[k]) == k;
    } else {
      assert FieldIndex(RequiredFields[k]) == k;
    }
  }

  /** Different fields have different keys. */
  lemma FieldKeyInjective(f: Field, g: Field)
    ensures FieldKey(f) == FieldKey(g) ==> f == g
  {
    if f == g {
    } else if FieldIndex(f) < 12 {
      KeysDifferFromEarly(f, g);
    } else {
      KeysDifferFromLate(f, g);
    }
  }

  lemma KeysDifferFromEarly(f: Field, g: Field)
    requires FieldIndex(f) < 12 && f != g
    ensures FieldKey(f) != FieldKey(g)
  {
    assert |FieldKey(f)| != |FieldKey(g)| || FieldKey(f)[0] != FieldKey(g)[0] || FieldKey(f)[1] != FieldKey(g)[1];
  }

  lemma KeysDifferFromLate(f: Field, g: Field)
    requires FieldIndex(f) >= 12 && f != g
    ensures FieldKey(f) != FieldKey(g)
  {
    assert |FieldKey(f)| != |FieldKey(g)| || FieldKey(f)[0] != FieldKey(g)[0] || FieldKey(f)[1] != FieldKey(g)[1];
  }

  /** The keys of the fields before position i. */
  function KeysBefore(i: nat): set<string>
    requires i <= |RequiredFields|
  {
    set f | f in RequiredFields[..i] :: FieldKey(f)
  }

  /** The keys of all required fields. */
  function RequiredKeys(): set<string> {
    KeysBefore(|RequiredFields|)
  }

  lemma KeysBeforeStep(i: nat)
    requires i < |RequiredFields|
    ensures KeysBefore(i + 1) == KeysBefore(i) + {FieldKey(RequiredFields[i])}
  {
    assert RequiredFields[..i + 1] == RequiredFields[..i] + [RequiredFields[i]];
  }

  /** The key of the field at position i is not among the keys before it. */
  lemma KeyNotBefore(i: nat)
    requires i < |RequiredFields|
    ensures FieldKey(RequiredFields[i]) !in KeysBefore(i)
  {
    forall j | 0 <= j < i ensures FieldKey(RequiredFields[j]) != FieldKey(RequiredFields[i]) {
      RequiredFieldsDistinct(j, i);
      FieldKeyInjective(RequiredFields[j], RequiredFields[i]);
    }
  }

  lemma FieldKeyIsRequired(f: Field)
    ensures FieldKey(f) in RequiredKeys()
  {
    assert RequiredFields[..|RequiredFields|] == RequiredFields;
    assert RequiredFields[FieldIndex(f)] == f;
  }
}
