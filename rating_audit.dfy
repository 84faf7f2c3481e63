/** The validation and repair of the JSON object the rating model returns in
    the deal-audit route: required fields, region back-fill, narrative
    formatting and the mapping of each failure to an error payload. */
module RatingAudit {
  import opened Wrappers
  import opened Json
  import opened RatingRegions
  import opened NarrativeSections
  import opened AuditFields
  import opened RatingNarrative

  // ===========================================================================
  // Validation of the model's reply in audit_deal

  /** A required field whose absence aborts the request. */
  predicate HardMissing(result: map<string, Value>, f: Field) {
    FieldKey(f) !in result && !Nullable(f)
  }

  /** The position of the first field of `fields`, from position i on, whose
      absence aborts the request. */
  function FirstHardMissingAt(result: map<string, Value>, fields: seq<Field>, i: nat): (r: Option<nat>)
    requires i <= |fields|
    decreases |fields| - i
    ensures r.Some? ==>
      i <= r.value < |fields| && HardMissing(result, fields[r.value]) &&
      forall l :: i <= l < r.value ==> !HardMissing(result, fields[l])
    ensures r.None? ==> forall j :: i <= j < |fields| ==> !HardMissing(result, fields[j])
  {
    if i == |fields| then None
    else if HardMissing(result, fields[i]) then Some(i)
    else FirstHardMissingAt(result, fields, i + 1)
  }

  /** The first required field, from position i of the list on, whose
      absence aborts the request. */
  function FirstHardMissing(result: map<string, Value>): (r: Option<Field>)
    ensures r.Some? ==>
      HardMissing(result, r.value) &&
      forall g: Field :: FieldIndex(g) < FieldIndex(r.value) ==> !HardMissing(result, g)
    ensures r.None? <==> forall g: Field :: !HardMissing(result, g)
  {
    match FirstHardMissingAt(result, RequiredFields, 0)
    case None =>
      assert forall g: Field :: !HardMissing(result, g) by {
        forall g: Field ensures !HardMissing(result, g) {
          assert RequiredFields[FieldIndex(g)] == g;
        }
      }
      None
    case Some(j) =>
      IndexOfListed(j);
      assert forall g: Field :: FieldIndex(g) < j ==> !HardMissing(result, g) by {
        forall g: Field | FieldIndex(g) < j ensures !HardMissing(result, g) {
          assert RequiredFields[FieldIndex(g)] == g;
        }
      }
      Some(RequiredFields[j])
  }

  /** None for each of the given keys the reply lacks. */
  function NullsFor(result: map<string, Value>, keys: set<string>): map<string, Value> {
    map k | k in keys && k !in result :: Null
  }

  /** The reply with every absent required field set to None. */
  function WithNulls(result: map<string, Value>): (r: map<string, Value>)
    ensures r.Keys == result.Keys + RequiredKeys()
    ensures forall k :: k in result ==> r[k] == result[k]
    ensures forall k :: k in r && k !in result ==> r[k] == Null
  {
    result + NullsFor(result, RequiredKeys())
  }

  /** Completing the reply keeps every value the model sent and adds only
      the required keys it lacks. */
  lemma WithNullsKeeps(parsed: map<string, Value>)
    ensures WithNulls(parsed).Keys == parsed.Keys + RequiredKeys()
    ensures forall k :: k in parsed ==> WithNulls(parsed)[k] == parsed[k]
  {
  }

  /** Once no required field is fatally missing, every required field is in
      the completed reply, and one the model left out is nullable and None. */
  lemma WithNullsField(parsed: map<string, Value>, f: Field)
    requires FirstHardMissing(parsed).None?
    ensures FieldKey(f) in WithNulls(parsed)
    ensures FieldKey(f) in parsed ==> WithNulls(parsed)[FieldKey(f)] == parsed[FieldKey(f)]
    ensures FieldKey(f) !in parsed ==> Nullable(f) && WithNulls(parsed)[FieldKey(f)] == Null
  {
    FieldKeyIsRequired(f);
    assert !HardMissing(parsed, f);
  }

  function MissingFieldMessage(f: Field): string {
    "Missing required field: " + FieldKey(f)
  }

  lemma NullsForStep(result: map<string, Value>, keys: set<string>, k: string)
    ensures k in result || k in keys ==> NullsFor(result, keys + {k}) == NullsFor(result, keys)
    ensures k !in result && k !in keys ==> result + NullsFor(result, keys + {k}) == (result + NullsFor(result, keys))[k := Null]
  {
  }

  /** The reply with the absent fields among the first i set to None. */
  function PartlyCompleted(parsed: map<string, Value>, i: nat): map<string, Value>
    requires i <= |RequiredFields|
  {
    parsed + NullsFor(parsed, KeysBefore(i))
  }

  /** Completing no field leaves the reply alone; completing all of them
      gives `WithNulls`. */
  lemma PartlyCompletedEnds(parsed: map<string, Value>)
    ensures PartlyCompleted(parsed, 0) == parsed
    ensures PartlyCompleted(parsed, |RequiredFields|) == WithNulls(parsed)
  {
    assert KeysBefore(0) == {};
    assert NullsFor(parsed, {}) == map[];
  }

  /** One step of the loop below: the key of field i is in the partly
      completed reply iff the model sent it, and completing one more field
      either leaves the reply alone or adds None under that key. */
  lemma CheckStep(parsed: map<string, Value>, i: nat)
    requires i < |RequiredFields|
    ensures var k := FieldKey(RequiredFields[i]);
            (k in PartlyCompleted(parsed, i) <==> k in parsed)
            && (k in parsed ==> PartlyCompleted(parsed, i + 1) == PartlyCompleted(parsed, i))
            && (k !in parsed ==> PartlyCompleted(parsed, i + 1) == PartlyCompleted(parsed, i)[k := Null])
  {
    var k := FieldKey(RequiredFields[i]);
    KeysBeforeStep(i);
    KeyNotBefore(i);
    NullsForStep(parsed, KeysBefore(i), k);
  }

  /** Field i either is the first fatal absence from i on or is skipped. */
  lemma HardMissingStep(parsed: map<string, Value>, i: nat)
    requires i < |RequiredFields|
    ensures HardMissing(parsed, RequiredFields[i]) ==> FirstHardMissingAt(parsed, RequiredFields, i) == Some(i)
    ensures !HardMissing(parsed, RequiredFields[i]) ==>
      FirstHardMissingAt(parsed, RequiredFields, i + 1) == FirstHardMissingAt(parsed, RequiredFields, i)
  {
  }

  /** The first fatal absence is the field at the position the scan finds. */
  lemma FirstHardMissingFromAt(parsed: map<string, Value>)
    ensures FirstHardMissingAt(parsed, RequiredFields, 0).None? ==> FirstHardMissing(parsed).None?
    ensures FirstHardMissingAt(parsed, RequiredFields, 0).Some? ==>
      FirstHardMissing(parsed) == Some(RequiredFields[FirstHardMissingAt(parsed, RequiredFields, 0).value])
  {
  }

  /** A fatal absence at i, with none before it, is the first one. */
  lemma FirstHardMissingIsAt(parsed: map<string, Value>, i: nat)
    requires i < |RequiredFields| && HardMissing(parsed, RequiredFields[i])
    requires FirstHardMissingAt(parsed, RequiredFields, i) == FirstHardMissingAt(parsed, RequiredFields, 0)
    ensures FirstHardMissing(parsed) == Some(RequiredFields[i])
  {
    FirstHardMissingFromAt(parsed);
  }

  /** The loop over `required_fields`: it either names the first required
      field whose absence is fatal, or returns the reply with every other
      absent required field set to None. */
  method CheckRequired(parsed: map<string, Value>) returns (outcome: Result<map<string, Value>, string>)
    ensures outcome.Failure? <==> FirstHardMissing(parsed).Some?
    ensures outcome.Failure? ==> outcome.error == MissingFieldMessage(FirstHardMissing(parsed).value)
    ensures outcome.Success? ==> outcome.value == WithNulls(parsed)
  {
    var result := parsed;
    var i := 0;
    PartlyCompletedEnds(parsed);
    while i < |RequiredFields|
      invariant 0 <= i <= |RequiredFields|
      invariant FirstHardMissingAt(parsed, RequiredFields, i) == FirstHardMissingAt(parsed, RequiredFields, 0)
      invariant result == PartlyCompleted(parsed, i)
    {
      var field := RequiredFields[i];
      CheckStep(parsed, i);
      HardMissingStep(parsed, i);
      if FieldKey(field) !in result {
        if Nullable(field) {
          result := result[FieldKey(field) := Null];
        } else {
          FirstHardMissingIsAt(parsed, i);
          return Failure(MissingFieldMessage(field));
        }
      }
      i := i + 1;
    }
    FirstHardMissingFromAt(parsed);
    outcome := Success(result);
  }

  /** The region fallback: a falsy region is replaced, by the category of a
      truthy state or else by "Outside US". `categorize_region` upper-cases
      its argument, so a truthy state that is not a string raises. */
  function BackfillRegion(result: map<string, Value>): (r: Result<map<string, Value>, string>)
    ensures r.Failure? <==>
      !Truthy(Get(result, "region")) && Truthy(Get(result, "state")) && !Get(result, "state").Str?
    ensures r.Failure? ==> r.error == NoAttributeMessage(Get(result, "state"), "upper")
    ensures r.Success? ==> r.value.Keys == result.Keys + {"region"}
    ensures r.Success? ==> forall k :: k in result && k != "region" ==> r.value[k] == result[k]
    ensures r.Success? ==> Truthy(r.value["region"])
    ensures r.Success? && Truthy(Get(result, "region")) ==> r.value["region"] == result["region"]
    ensures r.Success? && !Truthy(Get(result, "region")) && Truthy(Get(result, "state")) ==>
      r.value["region"] == Str(CategorizeRegion(Some(result["state"].s)))
    ensures r.Success? && !Truthy(Get(result, "region")) && !Truthy(Get(result, "state")) ==>
      r.value["region"] == Str(OutsideUs)
  {
    var region := Get(result, "region");
    var state := Get(result, "state");
    if !Truthy(region) && Truthy(state) then
      if state.Str? then Success(result["region" := Str(CategorizeRegion(Some(state.s)))])
      else Failure(NoAttributeMessage(state, "upper"))
    else if !Truthy(region) then Success(result["region" := Str(OutsideUs)])
    else Success(result)
  }

  const ParseErrorMessage: string := "❌ Failed to parse AI response as JSON"
  const InvalidFormatPrefix: string := "❌ Invalid response format: "
  const UnexpectedPrefix: string := "❌ Unexpected error: "

  /** The payload of each `except` branch. */
  function ErrorPayload(message: string, raw: Value): (r: map<string, Value>)
    ensures r.Keys == {"error", "raw_response"}
    ensures r["error"] == Str(message) && r["raw_response"] == raw
  {
    map["error" := Str(message), "raw_response" := raw]
  }

  /** The default the success payload reads for a field the reply lacks. */
  function PayloadDefault(f: Field): (r: Value)
    ensures Nullable(f) ==> r == Null
    ensures Truthy(r) <==> f == Badge || f == BuyerMessage || f == QuoteType
  {
    match f
    case Score => Int(0)
    case Badge => Str("Unknown")
    case BuyerMessage => Str("No message generated")
    case RedFlags => Array([])
    case GreenFlags => Array([])
    case BlueFlags => Array([])
    case NormalizedPricing => Object(map[])
    case Apr => Object(map[])
    case Term => Object(map[])
    case QuoteType => Str("Unknown")
    case BundleAbuse => Object(map[])
    case _ => Null
  }

  /** The value the success payload gives a field: the narrative is the
      formatted one, every other field the reply's value or its default. */
  function PayloadValue(result: map<string, Value>, formatted: map<string, Value>, f: Field): Value {
    if f == Narrative then Object(map["formatted" := Object(formatted)])
    else GetOr(result, FieldKey(f), PayloadDefault(f))
  }

  /** The success payload: one entry per required field. */
  function SuccessPayload(result: map<string, Value>, formatted: map<string, Value>): (r: map<string, Value>)
    ensures r.Keys == RequiredKeys()
  {
    forall f: Field, g: Field ensures FieldKey(f) == FieldKey(g) ==> f == g {
      FieldKeyInjective(f, g);
    }
    assert RequiredFields[..|RequiredFields|] == RequiredFields;
    map f | f in RequiredFields :: FieldKey(f) := PayloadValue(result, formatted, f)
  }

  /** The success payload has no "error" key. */
  lemma SuccessPayloadHasNoError(result: map<string, Value>, formatted: map<string, Value>)
    ensures "error" !in SuccessPayload(result, formatted)
  {
    assert "error" !in RequiredKeys();
  }

  lemma SuccessPayloadAt(result: map<string, Value>, formatted: map<string, Value>, f: Field)
    ensures FieldKey(f) in SuccessPayload(result, formatted)
    ensures SuccessPayload(result, formatted)[FieldKey(f)] == PayloadValue(result, formatted, f)
  {
    FieldKeyIsRequired(f);
    forall g | g in RequiredFields && FieldKey(g) == FieldKey(f) ensures g == f {
      FieldKeyInjective(f, g);
    }
  }

  /** Once every required field is present, none of the payload's defaults
      applies: each field but the narrative carries the validated value. */
  lemma SuccessPayloadCopiesFields(result: map<string, Value>, formatted: map<string, Value>, f: Field)
    requires RequiredKeys() <= result.Keys
    requires f != Narrative
    ensures SuccessPayload(result, formatted)[FieldKey(f)] == result[FieldKey(f)]
  {
    FieldKeyIsRequired(f);
    SuccessPayloadAt(result, formatted, f);
  }

  /** The success payload built from a completed reply has every required
      key and no "error" key, a truthy region, and the reply's narrative in
      formatted form. */
  lemma SuccessPayloadShape(obj: map<string, Value>, result: map<string, Value>, formatted: map<string, Value>)
    requires FirstHardMissing(obj).None?
    requires BackfillRegion(WithNulls(obj)) == Success(result)
    requires Get(result, "narrative").Object? && formatted == FormatNarrative(result["narrative"].fields)
    ensures "error" !in SuccessPayload(result, formatted)
    ensures SuccessPayload(result, formatted).Keys == RequiredKeys()
    ensures "region" in SuccessPayload(result, formatted) && Truthy(SuccessPayload(result, formatted)["region"])
    ensures Get(obj, "narrative").Object? && "narrative" in SuccessPayload(result, formatted)
    ensures SuccessPayload(result, formatted)["narrative"]
         == Object(map["formatted" := Object(FormatNarrative(obj["narrative"].fields))])
  {
    SuccessPayloadHasNoError(result, formatted);
    RegionKey();
    NarrativeKey();
    RegionAfterBackfill(WithNulls(obj), result);
    SuccessPayloadAt(result, formatted, Region);
    assert SuccessPayload(result, formatted)["region"] == result["region"];
    NarrativeAfterBackfill(obj, result);
    SuccessPayloadAt(result, formatted, Narrative);
  }

  /** A successful back-fill leaves a truthy region. */
  lemma RegionAfterBackfill(filled: map<string, Value>, result: map<string, Value>)
    requires BackfillRegion(filled) == Success(result)
    ensures "region" in result && Truthy(result["region"])
  {
  }

  /** The narrative is required and not nullable, so a reply that passes the
      check has one. */
  lemma NarrativeRequired(obj: map<string, Value>)
    requires FirstHardMissing(obj).None?
    ensures "narrative" in obj
  {
    assert !HardMissing(obj, Narrative);
    assert !Nullable(Narrative);
    NarrativeKey();
  }

  /** The region back-fill changes no other key. */
  lemma BackfillKeeps(filled: map<string, Value>, result: map<string, Value>, k: string)
    requires BackfillRegion(filled) == Success(result)
    requires k in filled && k != "region"
    ensures k in result && result[k] == filled[k]
  {
  }

  /** The narrative of a reply that passes the check reaches the back-filled
      result unchanged. */
  lemma NarrativeAfterBackfill(obj: map<string, Value>, result: map<string, Value>)
    requires FirstHardMissing(obj).None?
    requires BackfillRegion(WithNulls(obj)) == Success(result)
    ensures "narrative" in obj && "narrative" in result && result["narrative"] == obj["narrative"]
  {
    NarrativeRequired(obj);
    var filled := WithNulls(obj);
    assert "narrative" in filled && filled["narrative"] == obj["narrative"];
    BackfillKeeps(filled, result, "narrative");
  }

  /** What parsing the model's text produced: a decode error or a JSON object. */
  datatype ObjectParse = DecodeError | Decoded(obj: map<string, Value>)

  /** What the rating model's call produced: an exception with its message,
      or a raw reply together with the outcome of parsing it. */
  datatype AuditReply = CallFailed(message: string) | Replied(raw: string, parsed: ObjectParse)

  /** `audit_deal` after the call to the rating model: validate, repair and
      format the reply, or turn the first failure into an error payload that
      carries the raw reply. */
  method AuditDeal(reply: AuditReply) returns (response: map<string, Value>)
    ensures reply.CallFailed? ==> response == ErrorPayload(UnexpectedPrefix + reply.message, Null)
    ensures reply.Replied? && reply.parsed.DecodeError? ==>
      response == ErrorPayload(ParseErrorMessage, Str(reply.raw))
    ensures reply.Replied? && reply.parsed.Decoded? && FirstHardMissing(reply.parsed.obj).Some? ==>
      response == ErrorPayload(InvalidFormatPrefix + MissingFieldMessage(FirstHardMissing(reply.parsed.obj).value),
                               Str(reply.raw))
    ensures reply.Replied? && reply.parsed.Decoded? && FirstHardMissing(reply.parsed.obj).None? ==>
      var backfilled := BackfillRegion(WithNulls(reply.parsed.obj));
      && (backfilled.Failure? ==> response == ErrorPayload(UnexpectedPrefix + backfilled.error, Str(reply.raw)))
      && (backfilled.Success? && !Get(backfilled.value, "narrative").Object? ==>
            response == ErrorPayload(UnexpectedPrefix + NoAttributeMessage(Get(backfilled.value, "narrative"), "get"),
                                     Str(reply.raw)))
      && (backfilled.Success? && Get(backfilled.value, "narrative").Object? ==>
            response == SuccessPayload(backfilled.value, FormatNarrative(backfilled.value["narrative"].fields)))
    ensures "error" in response ==> response.Keys == {"error", "raw_response"}
    ensures "error" !in response ==>
      && reply.Replied? && reply.parsed.Decoded?
      && response.Keys == RequiredKeys()
      && "region" in response && Truthy(response["region"])
      && Get(reply.parsed.obj, "narrative").Object?
      && "narrative" in response
      && response["narrative"] == Object(map["formatted" := Object(FormatNarrative(reply.parsed.obj["narrative"].fields))])
  {
    if reply.CallFailed? {
      return ErrorPayload(UnexpectedPrefix + reply.message, Null);
    }
    if reply.parsed.DecodeError? {
      return ErrorPayload(ParseErrorMessage, Str(reply.raw));
    }
    var checked := CheckRequired(reply.parsed.obj);
    if checked.Failure? {
      return ErrorPayload(InvalidFormatPrefix + checked.error, Str(reply.raw));
    }
    var backfilled := BackfillRegion(checked.value);
    if backfilled.Failure? {
      return ErrorPayload(UnexpectedPrefix + backfilled.error, Str(reply.raw));
    }
    var result := backfilled.value;
    var narrative := Get(result, "narrative");
    if !narrative.Object? {
      return ErrorPayload(UnexpectedPrefix + NoAttributeMessage(narrative, "get"), Str(reply.raw));
    }
    var formatted := FormatNarrative(narrative.fields);
    response := SuccessPayload(result, formatted);
    SuccessPayloadShape(reply.parsed.obj, result, formatted);
  }
}
