/** The upload route of the extraction service: file-type validation, the
    choice between sending one PDF and converting images to a PDF, and the
    normalisation of the OCR result into form fields, header ("logo") text
    and a detected APR. The OCR call (with the file reads and the image
    conversion before it) is a parameter: a function from the conversion
    plan to the OCR outcome. */
module ExtractRoute {
  import opened Wrappers
  import opened PyStr
  import opened DocumentAi
  import opened AprScan

  // ===========================================================================
  // Text anchors

  /** `segment.start_index or 0`. */
  function OrZero(i: Option<int>): int {
    if i.None? then 0 else i.value
  }

  /** `get_text_from_text_anchor`: the slice of the document text that the
      anchor's first segment names, "" when the anchor has no segment. */
  function AnchorText(text: string, a: TextAnchor): (r: string)
    ensures |r| <= |text|
    ensures a.segments == [] ==> r == []
  {
    if a.segments == [] then []
    else
      var seg := a.segments[0];
      Slice(text, Some(OrZero(seg.startIndex)), Some(OrZero(seg.endIndex)))
  }

  /** With non-negative (or missing) indices the first segment selects the
      clamped range [start, end) of the text, empty when start >= end. */
  lemma AnchorTextClamps(text: string, a: TextAnchor)
    requires a.segments != []
    requires OrZero(a.segments[0].startIndex) >= 0 && OrZero(a.segments[0].endIndex) >= 0
    ensures var lo := if OrZero(a.segments[0].startIndex) < |text| then OrZero(a.segments[0].startIndex) else |text|;
            var hi := if OrZero(a.segments[0].endIndex) < |text| then OrZero(a.segments[0].endIndex) else |text|;
            AnchorText(text, a) == if lo < hi then text[lo..hi] else []
  {
    SliceClamps(text, OrZero(a.segments[0].startIndex), OrZero(a.segments[0].endIndex));
  }

  /** Only the first segment is read: later segments change nothing. */
  lemma AnchorTextIgnoresLaterSegments(text: string, seg: Segment, rest: seq<Segment>, content: string)
    ensures AnchorText(text, TextAnchor([seg] + rest, content)) == AnchorText(text, TextAnchor([seg], ""))
  {
  }

  /** A missing end index reads as 0, so the slice is empty. */
  lemma AnchorTextMissingEnd(text: string, a: TextAnchor)
    requires a.segments != [] && a.segments[0].endIndex.None?
    requires OrZero(a.segments[0].startIndex) >= 0
    ensures AnchorText(text, a) == []
  {
  }

  // ===========================================================================
  // File-type validation and the conversion plan

  /** `"." + filename.lower().rsplit(".", 1)[-1]`. */
  function Extension(name: string): (ext: string)
    ensures |ext| >= 1 && ext[0] == '.'
    ensures '.' !in ext[1..]
  {
    AfterLastIsLastPart(Lower(name), '.');
    "." + AfterLast(Lower(name), '.')
  }

  /** The keys of `mime_map`. */
  predicate SupportedExtension(ext: string) {
    ext == ".pdf" || ext == ".png" || ext == ".jpg" || ext == ".jpeg" || ext == ".tiff" || ext == ".tif"
  }

  /** The detail of the 400 error for an unsupported file. */
  function UnsupportedDetail(ext: string): string {
    "Unsupported file type: " + ext + ". Please upload PDF, PNG, JPEG, or TIFF."
  }

  /** The index of the first file whose extension is not supported. */
  function FirstUnsupported(names: seq<string>): (r: Option<nat>)
    ensures r.Some? ==> r.value < |names| && !SupportedExtension(Extension(names[r.value]))
    ensures r.Some? ==> forall j :: 0 <= j < r.value ==> SupportedExtension(Extension(names[j]))
    ensures r.None? <==> forall j :: 0 <= j < |names| ==> SupportedExtension(Extension(names[j]))
  {
    if |names| == 0 then None
    else if !SupportedExtension(Extension(names[0])) then Some(0)
    else
      var rest := FirstUnsupported(names[1..]);
      if rest.None? then None else Some(rest.value + 1)
  }

  /** What is sent to OCR: the single PDF as uploaded, or every file, in
      upload order, converted from images into one PDF. */
  datatype Conversion = SinglePdf(name: string) | ImagesToPdf(names: seq<string>)

  function PlanFor(names: seq<string>): (c: Conversion)
    ensures c.SinglePdf? <==> |names| == 1 && EndsWith(Lower(names[0]), ".pdf")
    ensures c.SinglePdf? ==> c.name == names[0]
    ensures c.ImagesToPdf? ==> c.names == names
  {
    if |names| == 1 && EndsWith(Lower(names[0]), ".pdf") then SinglePdf(names[0])
    else ImagesToPdf(names)
  }

  // ===========================================================================
  // Header text and form fields

  const RouteHeaderThreshold: real := 0.15

  datatype LogoEntry = LogoEntry(text: string, confidence: real)

  datatype FieldEntry = FieldEntry(name: string, value: string, confidence: real)

  /** The test a block passes to enter `logo_text`. */
  predicate IsLogoBlock(text: string, b: Block) {
    AnchorText(text, b.layout.anchor) != [] && InHeader(b.layout, RouteHeaderThreshold)
  }

  function LogoEntryOf(text: string, b: Block): LogoEntry {
    LogoEntry(AnchorText(text, b.layout.anchor), b.layout.confidence)
  }

  /** The `logo_text` entries contributed by a page's blocks. */
  function PageLogo(text: string, blocks: seq<Block>): seq<LogoEntry> {
    if |blocks| == 0 then []
    else
      var b := blocks[|blocks| - 1];
      PageLogo(text, blocks[..|blocks| - 1]) + (if IsLogoBlock(text, b) then [LogoEntryOf(text, b)] else [])
  }

  /** The filter distributes over concatenation: blocks keep their order and
      each contributes on its own. */
  lemma {:induction false} PageLogoAppend(text: string, xs: seq<Block>, ys: seq<Block>)
    ensures PageLogo(text, xs + ys) == PageLogo(text, xs) + PageLogo(text, ys)
    decreases |ys|
  {
    if |ys| == 0 {
      assert xs + ys == xs;
    } else {
      var init := ys[..|ys| - 1];
      assert (xs + ys)[..|xs + ys| - 1] == xs + init;
      assert (xs + ys)[|xs + ys| - 1] == ys[|ys| - 1];
      PageLogoAppend(text, xs, init);
    }
  }

  /** An entry is in a page's `logo_text` iff some block of the page passes
      the test and yields it. */
  lemma {:induction false} PageLogoMembers(text: string, blocks: seq<Block>, e: LogoEntry)
    ensures e in PageLogo(text, blocks)
        <==> exists i :: 0 <= i < |blocks| && IsLogoBlock(text, blocks[i]) && e == LogoEntryOf(text, blocks[i])
  {
    if |blocks| > 0 {
      var init := blocks[..|blocks| - 1];
      PageLogoMembers(text, init, e);
      if e in PageLogo(text, blocks) && e !in PageLogo(text, init) {
        assert IsLogoBlock(text, blocks[|blocks| - 1]);
      }
      if exists i :: 0 <= i < |blocks| && IsLogoBlock(text, blocks[i]) && e == LogoEntryOf(text, blocks[i]) {
        var i :| 0 <= i < |blocks| && IsLogoBlock(text, blocks[i]) && e == LogoEntryOf(text, blocks[i]);
        if i < |blocks| - 1 {
          assert init[i] == blocks[i];
        }
      }
    }
  }

  /** Every `logo_text` entry has text. */
  lemma {:induction false} PageLogoHasText(text: string, blocks: seq<Block>)
    ensures forall k :: 0 <= k < |PageLogo(text, blocks)| ==> PageLogo(text, blocks)[k].text != []
    ensures |PageLogo(text, blocks)| <= |blocks|
  {
    if |blocks| > 0 {
      PageLogoHasText(text, blocks[..|blocks| - 1]);
    }
  }

  /** A form field's entry: stripped first-segment texts of name and value,
      and the value region's confidence. */
  function FieldEntryOf(text: string, f: FormField): FieldEntry {
    FieldEntry(Strip(AnchorText(text, f.fieldName.anchor)),
               Strip(AnchorText(text, f.fieldValue.anchor)),
               f.fieldValue.confidence)
  }

  function PageFields(text: string, fields: seq<FormField>): seq<FieldEntry> {
    if |fields| == 0 then []
    else PageFields(text, fields[..|fields| - 1]) + [FieldEntryOf(text, fields[|fields| - 1])]
  }

  /** One entry per form field, in order. */
  lemma {:induction false} PageFieldsOnePerField(text: string, fields: seq<FormField>)
    ensures |PageFields(text, fields)| == |fields|
    ensures forall k :: 0 <= k < |fields| ==> PageFields(text, fields)[k] == FieldEntryOf(text, fields[k])
  {
    if |fields| > 0 {
      var init := fields[..|fields| - 1];
      PageFieldsOnePerField(text, init);
      forall k | 0 <= k < |fields| - 1 ensures PageFields(text, fields)[k] == FieldEntryOf(text, fields[k]) {
        assert init[k] == fields[k];
      }
    }
  }

  /** Names and values carry no edge whitespace. */
  lemma FieldEntryTrimmed(text: string, f: FormField)
    ensures var e := FieldEntryOf(text, f);
            (e.name != [] ==> !IsSpace(e.name[0]) && !IsSpace(e.name[|e.name| - 1]))
            && (e.value != [] ==> !IsSpace(e.value[0]) && !IsSpace(e.value[|e.value| - 1]))
  {
    StripHasNoEdgeSpace(AnchorText(text, f.fieldName.anchor));
    StripHasNoEdgeSpace(AnchorText(text, f.fieldValue.anchor));
  }

  // ===========================================================================
  // Page text

  /** `sep.join(parts)`. */
  function Join(sep: string, parts: seq<string>): string {
    if |parts| == 0 then []
    else if |parts| == 1 then parts[0]
    else Join(sep, parts[..|parts| - 1]) + sep + parts[|parts| - 1]
  }

  /** The length of a join: the parts plus one separator between each two. */
  lemma {:induction false} JoinLength(sep: string, parts: seq<string>)
    ensures |parts| > 0 ==> |Join(sep, parts)| == LengthSum(parts) + (|parts| - 1) * |sep|
  {
    if |parts| == 1 {
      assert parts[..0] == [];
    } else if |parts| > 1 {
      var init := parts[..|parts| - 1];
      var last := parts[|parts| - 1];
      JoinLength(sep, init);
      assert |Join(sep, parts)| == |Join(sep, init)| + |sep| + |last|;
      assert LengthSum(parts) == LengthSum(init) + |last|;
      var n := |init| - 1;
      assert (n + 1) * |sep| == n * |sep| + |sep|;
    }
  }

  function LengthSum(parts: seq<string>): nat {
    if |parts| == 0 then 0 else LengthSum(parts[..|parts| - 1]) + |parts[|parts| - 1]|
  }

  /** The blocks whose text enters the page text: those whose layout has a
      text anchor (with or without segments). */
  predicate InPageText(b: Block) {
    LayoutSet(b.layout) && AnchorSet(b.layout.anchor)
  }

  function AnchoredTexts(text: string, blocks: seq<Block>): seq<string> {
    if |blocks| == 0 then []
    else
      var b := blocks[|blocks| - 1];
      AnchoredTexts(text, blocks[..|blocks| - 1]) + (if InPageText(b) then [AnchorText(text, b.layout.anchor)] else [])
  }

  /** The page text the APR pattern is searched in. */
  function PageText(text: string, blocks: seq<Block>): (r: string)
    ensures |AnchoredTexts(text, blocks)| == 0 ==> r == []
    ensures |AnchoredTexts(text, blocks)| > 0 ==>
      |r| == LengthSum(AnchoredTexts(text, blocks)) + |AnchoredTexts(text, blocks)| - 1
  {
    JoinLength(" ", AnchoredTexts(text, blocks));
    Join(" ", AnchoredTexts(text, blocks))
  }

  // ===========================================================================
  // The document-level results

  /** `logo_text` over the pages, page by page. */
  function DocLogo(text: string, pages: seq<Page>): seq<LogoEntry> {
    if |pages| == 0 then []
    else DocLogo(text, pages[..|pages| - 1]) + PageLogo(text, pages[|pages| - 1].blocks)
  }

  /** `form_fields` over the pages, page by page. */
  function DocFields(text: string, pages: seq<Page>): seq<FieldEntry> {
    if |pages| == 0 then []
    else DocFields(text, pages[..|pages| - 1]) + PageFields(text, pages[|pages| - 1].formFields)
  }

  /** `apr_candidates`: the numerals found in each page's text, accumulated
      page by page. */
  function DocAprs(text: string, pages: seq<Page>): (r: seq<string>)
    ensures AllNumerals(r)
  {
    if |pages| == 0 then []
    else DocAprs(text, pages[..|pages| - 1]) + FindAll(PageText(text, pages[|pages| - 1].blocks))
  }

  datatype OcrOutcome = OcrFailed(message: string) | OcrSucceeded(doc: Document)

  datatype Response =
    | HttpError(status: int, detail: string)
    | Extracted(text: string, formFields: seq<FieldEntry>, logoText: seq<LogoEntry>, detectedApr: Option<nat>)

  /** The block loop of one page: appends the header blocks' entries to
      `logoText`. */
  method AppendHeaderBlocks(text: string, blocks: seq<Block>, logoText: seq<LogoEntry>)
    returns (out: seq<LogoEntry>)
    ensures out == logoText + PageLogo(text, blocks)
  {
    out := logoText;
    var bi := 0;
    while bi < |blocks|
      invariant bi <= |blocks|
      invariant out == logoText + PageLogo(text, blocks[..bi])
    {
      var block := blocks[bi];
      var t := AnchorText(text, block.layout.anchor);
      if t != [] && PolySet(block.layout.poly) {
        var vertices := block.layout.poly.normalizedVertices;
        if vertices != [] && |vertices| > 0 {
          var avgY := MeanY(vertices);
          if avgY < RouteHeaderThreshold {
            out := out + [LogoEntry(t, block.layout.confidence)];
          }
        }
      }
      assert blocks[..bi + 1][..bi] == blocks[..bi];
      bi := bi + 1;
    }
    assert blocks[..bi] == blocks;
  }

  /** The form-field loop of one page: appends one entry per field to
      `formFields`. */
  method AppendFormFields(text: string, fields: seq<FormField>, formFields: seq<FieldEntry>)
    returns (out: seq<FieldEntry>)
    ensures out == formFields + PageFields(text, fields)
  {
    out := formFields;
    var fi := 0;
    while fi < |fields|
      invariant fi <= |fields|
      invariant out == formFields + PageFields(text, fields[..fi])
    {
      var field := fields[fi];
      var name := Strip(AnchorText(text, field.fieldName.anchor));
      var value := Strip(AnchorText(text, field.fieldValue.anchor));
      out := out + [FieldEntry(name, value, field.fieldValue.confidence)];
      assert fields[..fi + 1][..fi] == fields[..fi];
      fi := fi + 1;
    }
    assert fields[..fi] == fields;
  }

  /** The page loop of `upload_and_extract`: for each page in turn, the
      header blocks are appended to `logo_text`, every form field to
      `form_fields`, and the APR numerals of the page text to
      `apr_candidates`. */
  method ScanPages(text: string, pages: seq<Page>)
    returns (formFields: seq<FieldEntry>, logoText: seq<LogoEntry>, aprCandidates: seq<string>)
    ensures formFields == DocFields(text, pages)
    ensures logoText == DocLogo(text, pages)
    ensures aprCandidates == DocAprs(text, pages)
  {
    formFields, logoText, aprCandidates := [], [], [];
    var pi := 0;
    while pi < |pages|
      invariant pi <= |pages|
      invariant formFields == DocFields(text, pages[..pi])
      invariant logoText == DocLogo(text, pages[..pi])
      invariant aprCandidates == DocAprs(text, pages[..pi])
    {
      var page := pages[pi];
      assert pages[..pi + 1][..pi] == pages[..pi];
      logoText := AppendHeaderBlocks(text, page.blocks, logoText);
      formFields := AppendFormFields(text, page.formFields, formFields);
      var pageText := PageText(text, page.blocks);
      var matches := FindAll(pageText);
      if matches != [] {
        aprCandidates := aprCandidates + matches;
      }
      pi := pi + 1;
    }
    assert pages[..pi] == pages;
  }

  /** `upload_and_extract`. A file with an unsupported extension ends the
      request with 400 before OCR is consulted; an OCR failure is a 500 with
      its message; otherwise the response carries the document text and the
      fields, header text and APR gathered over the pages. */
  method UploadAndExtract(names: seq<string>, ocr: Conversion -> OcrOutcome) returns (r: Response)
    ensures FirstUnsupported(names).Some? ==>
              r == HttpError(400, UnsupportedDetail(Extension(names[FirstUnsupported(names).value])))
    ensures FirstUnsupported(names).None? && ocr(PlanFor(names)).OcrFailed? ==>
              r == HttpError(500, ocr(PlanFor(names)).message)
    ensures FirstUnsupported(names).None? && ocr(PlanFor(names)).OcrSucceeded? ==>
              var doc := ocr(PlanFor(names)).doc;
              r == Extracted(doc.text, DocFields(doc.text, doc.pages), DocLogo(doc.text, doc.pages),
                             SelectApr(DocAprs(doc.text, doc.pages)))
  {
    var i := 0;
    while i < |names|
      invariant i <= |names|
      invariant forall j :: 0 <= j < i ==> SupportedExtension(Extension(names[j]))
    {
      var ext := Extension(names[i]);
      if !SupportedExtension(ext) {
        return HttpError(400, UnsupportedDetail(ext));
      }
      i := i + 1;
    }

    var outcome := ocr(PlanFor(names));
    if outcome.OcrFailed? {
      return HttpError(500, outcome.message);
    }
    var doc := outcome.doc;

    var formFields, logoText, aprCandidates := ScanPages(doc.text, doc.pages);
    var detectedApr := SelectApr(aprCandidates);
    r := Extracted(doc.text, formFields, logoText, detectedApr);
  }
}
