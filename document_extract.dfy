/** Logo extraction through a vision model: `extract_logo_text_openai`
    chooses the media type of the upload, posts it, and repairs the model's
    reply into a result dictionary or an error entry.

    The environment lookup of the API key, the base64 encoding, the HTTP
    request and `json.loads` are inputs: the key as an `Option`, the encoded
    file as a string, the request as a function from the data URL to its
    outcome, and the parser as a function from text to a parsed value or
    the parser's error message. */
module DocumentExtract {
  import opened Wrappers
  import opened PyStr
  import opened Json

  // ===========================================================================
  // Media type

  /** The media type written into the data URL. The "image" prefix test is
      case-sensitive, the "pdf" test is not. */
  function MediaType(contentType: string): (r: string)
    ensures StartsWith(r, "image") || r == "application/pdf"
  {
    if StartsWith(contentType, "image") then contentType
    else if Contains(Lower(contentType), "pdf") then "application/pdf"
    else "image/jpeg"
  }

  /** A content type that is not an image type is sent as a PDF exactly when
      it mentions "pdf" in any case; every other one is sent as JPEG. */
  lemma MediaTypeNonImage(contentType: string)
    requires !StartsWith(contentType, "image")
    ensures MediaType(contentType) == "application/pdf" <==> Contains(Lower(contentType), "pdf")
    ensures MediaType(contentType) != "application/pdf" ==> MediaType(contentType) == "image/jpeg"
  {
  }

  /** The PDF type is chosen iff the content type is not an image type and
      mentions "pdf". */
  lemma MediaTypePdfIff(contentType: string)
    ensures MediaType(contentType) == "application/pdf"
        <==> !StartsWith(contentType, "image") && Contains(Lower(contentType), "pdf")
  {
    if StartsWith(contentType, "image") {
      assert contentType[..5] == "image";
      assert "application/pdf"[..5] != "image" by {
        assert "application/pdf"[0] == 'a';
      }
    }
  }

  /** `f"data:{media_type};base64,{base64_image}"`. */
  function DataUrl(mediaType: string, base64Image: string): string {
    "data:" + mediaType + ";base64," + base64Image
  }

  // ===========================================================================
  // JSON block of a reply

  /** The first position of `c` in `s`. */
  function FirstIndexOf(s: string, c: char): (r: Option<nat>)
    ensures r.Some? ==> r.value < |s| && s[r.value] == c && forall k :: 0 <= k < r.value ==> s[k] != c
    ensures r.None? ==> forall k :: 0 <= k < |s| ==> s[k] != c
  {
    if |s| == 0 then None
    else if s[0] == c then Some(0)
    else
      match FirstIndexOf(s[1..], c)
      case None => None
      case Some(k) => Some(k + 1)
  }

  /** The last position of `c` in `s`. */
  function LastIndexOf(s: string, c: char): (r: Option<nat>)
    ensures r.Some? ==> r.value < |s| && s[r.value] == c && forall k :: r.value < k < |s| ==> s[k] != c
    ensures r.None? ==> forall k :: 0 <= k < |s| ==> s[k] != c
  {
    if |s| == 0 then None
    else if s[|s| - 1] == c then Some(|s| - 1)
    else LastIndexOf(s[..|s| - 1], c)
  }

  /** The text `re.search(r'\{.*\}', s, re.DOTALL)` matches: from the first
      '{' to the last '}', when a '}' follows that '{'. */
  function JsonBlock(s: string): (r: Option<string>)
    ensures r.Some? ==> |r.value| >= 2 && r.value[0] == '{' && r.value[|r.value| - 1] == '}'
  {
    var open := FirstIndexOf(s, '{');
    var close := LastIndexOf(s, '}');
    if open.Some? && close.Some? && open.value < close.value then Some(s[open.value..close.value + 1])
    else None
  }

  /** The pattern `\{.*\}` with DOTALL matches `s[i..j+1]`: a '{', anything,
      a '}'. */
  predicate BraceMatch(s: string, i: int, j: int) {
    0 <= i < j < |s| && s[i] == '{' && s[j] == '}'
  }

  /** `JsonBlock` is the regex search: there is a match iff some '{' has a
      '}' after it, and the one found starts at the leftmost start of any
      match and, being greedy, ends at the rightmost end from there. */
  lemma JsonBlockIsSearch(s: string)
    ensures JsonBlock(s).Some? <==> exists i, j :: BraceMatch(s, i, j)
    ensures JsonBlock(s).Some? ==>
              exists i, j :: BraceMatch(s, i, j) && JsonBlock(s).value == s[i..j + 1]
                && forall i', j' :: BraceMatch(s, i', j') ==> i <= i' && (i' == i ==> j' <= j)
  {
    var open := FirstIndexOf(s, '{');
    var close := LastIndexOf(s, '}');
    if open.Some? && close.Some? && open.value < close.value {
      assert BraceMatch(s, open.value, close.value);
      forall i', j' | BraceMatch(s, i', j')
        ensures open.value <= i' && (i' == open.value ==> j' <= close.value)
      {
      }
      assert JsonBlock(s).value == s[open.value..close.value + 1];
    } else {
      forall i, j ensures !BraceMatch(s, i, j) {
      }
    }
  }

  /** A reply that wraps one JSON object in text holding no '{' before it and
      no '}' after it (a markdown fence, say) gives back that object. */
  lemma JsonBlockOfWrapped(before: string, obj: string, after: string)
    requires forall k :: 0 <= k < |before| ==> before[k] != '{'
    requires forall k :: 0 <= k < |after| ==> after[k] != '}'
    requires |obj| >= 2 && obj[0] == '{' && obj[|obj| - 1] == '}'
    ensures JsonBlock(before + obj + after) == Some(obj)
  {
    var s := before + obj + after;
    var open := FirstIndexOf(s, '{');
    var close := LastIndexOf(s, '}');
    var a := |before|;
    var b := |before| + |obj| - 1;
    assert s[a] == '{' && s[b] == '}';
    assert open.Some? && open.value <= a;
    assert open.value == a;
    assert close.Some? && b <= close.value;
    assert close.value == b;
    assert s[a..b + 1] == obj;
  }

  /** Cutting the block out twice changes nothing. */
  lemma JsonBlockIdempotent(s: string)
    requires JsonBlock(s).Some?
    ensures JsonBlock(JsonBlock(s).value) == JsonBlock(s)
  {
    var obj := JsonBlock(s).value;
    JsonBlockOfWrapped([], obj, []);
    assert [] + obj + [] == obj;
  }

  // ===========================================================================
  // The reply and the result

  const KeyMissingMessage: string := "OPENAI_API_KEY not set"
  const ApiErrorPrefix: string := "OpenAI API error: "
  const RequestErrorPrefix: string := "Request error: "
  const ErrorPrefix: string := "Error: "

  /** An exception on the way, by the handler that catches it:
      `requests.exceptions.RequestException` or any other. */
  datatype Raised = RequestError(message: string) | OtherError(message: string)

  /** The outcome of the request: it raised, or it returned a status, a body
      text and the reply message's content (or the exception that reading
      `["choices"][0]["message"]["content"]` raised). */
  datatype HttpReply =
    | PostRaised(raised: Raised)
    | Posted(status: int, text: string, content: Result<string, Raised>)

  /** The single-entry dictionary an exception handler returns. */
  function ErrorEntry(e: Raised): (r: map<string, Value>)
    ensures r.Keys == {"error"}
  {
    match e
    case RequestError(m) => map["error" := Str(RequestErrorPrefix + m)]
    case OtherError(m) => map["error" := Str(ErrorPrefix + m)]
  }

  /** The data used when no JSON object can be found in the reply. */
  function DefaultData(): map<string, Value> {
    map["logos" := Array([]), "total_logos_found" := Int(0), "confidence_score" := Int(0)]
  }

  /** The data read from the reply content: the direct parse; when that
      fails, the parse of the JSON block; with no block, the default data. A
      failing parse of the block escapes to the generic handler. */
  function ReplyData(content: string, parse: string -> Result<Value, string>): (r: Result<Value, Raised>)
    ensures parse(content).Success? ==> r == Success(parse(content).value)
    ensures r.Failure? <==>
      parse(content).Failure? && JsonBlock(content).Some? && parse(JsonBlock(content).value).Failure?
    ensures r.Failure? ==> r.error == OtherError(parse(JsonBlock(content).value).error)
  {
    match parse(content)
    case Success(v) => Success(v)
    case Failure(_) =>
      match JsonBlock(content)
      case None => Success(Object(DefaultData()))
      case Some(block) =>
        match parse(block)
        case Success(v) => Success(v)
        case Failure(m) => Failure(OtherError(m))
  }

  /** The result built from the data, each missing key defaulted; data that
      is not a dictionary has no `get`, and the generic handler reports it. */
  function ShapeResult(data: Value): (r: map<string, Value>)
    ensures data.Object? ==> r.Keys == {"logos", "total_logos_found", "confidence_score", "raw_response"}
    ensures !data.Object? ==> r == ErrorEntry(OtherError(NoAttributeMessage(data, "get")))
  {
    match data
    case Object(d) =>
      map["logos" := GetOr(d, "logos", Array([])),
          "total_logos_found" := GetOr(d, "total_logos_found", Int(0)),
          "confidence_score" := GetOr(d, "confidence_score", Int(0)),
          "raw_response" := data]
    case _ => ErrorEntry(OtherError(NoAttributeMessage(data, "get")))
  }

  /** The dictionary a non-200 status gives. */
  function ApiErrorEntry(status: int, text: string): map<string, Value> {
    map["error" := Str(ApiErrorPrefix + IntToString(status)), "details" := Str(text)]
  }

  /** `extract_logo_text_openai`. */
  function ExtractLogoText(apiKey: Option<string>, contentType: string, base64Image: string,
                           post: string -> HttpReply, parse: string -> Result<Value, string>): (r: map<string, Value>)
    ensures apiKey.None? || apiKey.value == [] ==> r == map["error" := Str(KeyMissingMessage)]
    ensures r.Keys == {"error"} || r.Keys == {"error", "details"}
            || r.Keys == {"logos", "total_logos_found", "confidence_score", "raw_response"}
  {
    if apiKey.None? || apiKey.value == [] then map["error" := Str(KeyMissingMessage)]
    else
      match post(DataUrl(MediaType(contentType), base64Image))
      case PostRaised(e) => ErrorEntry(e)
      case Posted(status, text, content) =>
        if status != 200 then ApiErrorEntry(status, text)
        else if content.Failure? then ErrorEntry(content.error)
        else
          match ReplyData(content.value, parse)
          case Failure(e) => ErrorEntry(e)
          case Success(data) => ShapeResult(data)
  }

  // ===========================================================================
  // Properties of the result

  /** Without a key the result is the key error, whatever the request would
      have returned: no request is made. */
  lemma MissingKeyShortCircuits(apiKey: Option<string>, contentType: string, base64Image: string,
                                post1: string -> HttpReply, post2: string -> HttpReply,
                                parse: string -> Result<Value, string>)
    requires apiKey.None? || apiKey.value == []
    ensures ExtractLogoText(apiKey, contentType, base64Image, post1, parse)
         == ExtractLogoText(apiKey, contentType, base64Image, post2, parse)
         == map["error" := Str(KeyMissingMessage)]
  {
  }

  /** A reply with a status other than 200 gives only the error and the
      details, and the status reads back from the end of the message. */
  lemma ApiErrorCarriesStatus(apiKey: Option<string>, contentType: string, base64Image: string,
                              post: string -> HttpReply, parse: string -> Result<Value, string>)
    requires apiKey.Some? && apiKey.value != []
    requires var reply := post(DataUrl(MediaType(contentType), base64Image));
             reply.Posted? && reply.status != 200 && reply.status >= 0
    ensures var reply := post(DataUrl(MediaType(contentType), base64Image));
            var r := ExtractLogoText(apiKey, contentType, base64Image, post, parse);
            r.Keys == {"error", "details"} && r["details"] == Str(reply.text)
            && r["error"].Str? && StartsWith(r["error"].s, ApiErrorPrefix)
            && DecimalValue(r["error"].s[|ApiErrorPrefix|..]) == reply.status
  {
    var reply := post(DataUrl(MediaType(contentType), base64Image));
    var msg := ApiErrorPrefix + IntToString(reply.status);
    assert msg[|ApiErrorPrefix|..] == NatToString(reply.status);
    NatToStringRoundTrip(reply.status);
  }

  /** Content that parses directly is used as it is, whatever a block in it
      would give. */
  lemma DirectParseWins(content: string, parse: string -> Result<Value, string>)
    requires parse(content).Success?
    ensures ReplyData(content, parse) == Success(parse(content).value)
  {
  }

  /** Content that does not parse and holds no '{'-to-'}' block gives the
      default data: no logos, and zero for the count and the score. */
  lemma NoBlockDefaults(content: string, parse: string -> Result<Value, string>)
    requires parse(content).Failure?
    requires forall i, j :: !BraceMatch(content, i, j)
    ensures ReplyData(content, parse) == Success(Object(DefaultData()))
    ensures var r := ShapeResult(ReplyData(content, parse).value);
            r["logos"] == Array([]) && r["total_logos_found"] == Int(0) && r["confidence_score"] == Int(0)
  {
    JsonBlockIsSearch(content);
  }

  /** A block that does not parse either ends in the generic handler's single
      error entry. */
  lemma BadBlockIsOneError(apiKey: Option<string>, contentType: string, base64Image: string,
                           post: string -> HttpReply, parse: string -> Result<Value, string>)
    requires apiKey.Some? && apiKey.value != []
    requires var reply := post(DataUrl(MediaType(contentType), base64Image));
             reply.Posted? && reply.status == 200 && reply.content.Success?
             && parse(reply.content.value).Failure?
             && JsonBlock(reply.content.value).Some?
             && parse(JsonBlock(reply.content.value).value).Failure?
    ensures var reply := post(DataUrl(MediaType(contentType), base64Image));
            ExtractLogoText(apiKey, contentType, base64Image, post, parse)
              == map["error" := Str(ErrorPrefix + parse(JsonBlock(reply.content.value).value).error)]
  {
  }

  /** In a success, each of the three fields is the reply's own value when it
      has one and its default otherwise, and the reply is kept whole. */
  lemma SuccessDefaults(d: map<string, Value>)
    ensures var r := ShapeResult(Object(d));
            (r["logos"] == if "logos" in d then d["logos"] else Array([]))
            && (r["total_logos_found"] == if "total_logos_found" in d then d["total_logos_found"] else Int(0))
            && (r["confidence_score"] == if "confidence_score" in d then d["confidence_score"] else Int(0))
            && r["raw_response"] == Object(d)
  {
  }
}
