# Deal-sheet intake and audit: a Dafny model

This project models the deterministic core of an auto-finance deal-sheet
pipeline. OCR output from a document-understanding service is normalised
into header ("logo") text, form fields, tables and an APR candidate list.
A vision model's reply about logos is repaired into a result dictionary.
The JSON audit returned by a language model is checked, back-filled and
reshaped into the response the rating route sends. Four files make up the
core:

- `App/services/rating/rating_route.py`: the US region sets and
  `categorize_region`, the state-code search in an address,
  `format_narrative` with its nine fallback texts, and `audit_deal`'s
  validation loop, region back-fill, success payload and error payloads.
- `App/services/extraction/extract_route.py`: the upload route. It checks
  file extensions, chooses between one PDF and an image-to-PDF conversion,
  looks up first-segment anchor text, applies the 0.15 header filter,
  flattens form fields, scans each page for `(\d{1,2}\.\d{1,2})\s*%` and
  selects the least APR below 20.
- `App/services/extraction/extract.py`: the structured path. `get_text`
  joins all segments and strips the result. The header filter is at 0.10.
  Form fields become name/value records, tables become rows of cell records,
  and there is one record per page.
- `App/services/extraction/document_extract.py`: the media-type choice, the
  request outcome handling, the first-`{`-to-last-`}` repair of a non-JSON
  reply, and the defaulting of the result keys.

Modules:
- `Wrappers` (`Option`, `Result`).
- `PyStr`: ASCII `strip`/`upper`/`lower`, slicing with Python's clamping,
  `in`, `rsplit`, and decimal digits.
- `Json`: parsed JSON values with Python truthiness.
- `DocumentAi`: the OCR result's messages, with protobuf truthiness.
- `RatingRegions`, `NarrativeSections`, `RatingNarrative`, `AuditFields` and
  `RatingAudit`: the rating route.
- `AprScan`: the APR pattern, its left-to-right scan and the selection.
- `ExtractRoute`: the upload route.
- `Extract`: the structured path.
- `DocumentExtract`: the vision-reply repair.
- `AprExamples`, `RouteExamples` and `DocumentExtractExamples`: worked
  examples on literals.

Pure code is modelled as functions and lemmas. The loops that build lists
are methods with loop invariants, proved equal to the specification
functions the lemmas are about. These are the upload route's page, block
and field loops, and in the structured path `get_text`, `extract_cells`,
the row, table, block and field loops and the page loop.

Where the two source files disagree, the model keeps both behaviours. The
header threshold is 0.15 in the upload route and 0.10 in the structured
path. The route's anchor lookup reads only the first segment, while
`get_text` joins every segment. The route guards the end index with
`or 0`, while `get_text` slices with it as it is. Since Document AI
delivers an unset index as 0, the two differ on an end index only when it
is `None`, which a Document AI message never carries
(`Extract.MissingEndDiffers`).

Where the code and the design description disagree, the model follows the
code:
- The South set has 15 codes, including DC.
- The North set has 23 codes.
- `format_narrative` fills nine sections.
- A non-200 reply from the vision service is returned as an
  `{error, details}` dictionary, not turned into an empty logo list.
- The page text scanned for APRs joins only blocks whose layout and anchor
  are set, each through the first-segment lookup.

APR strings match `\d{1,2}\.\d{1,2}`, so they are held as exact integer
hundredths: `float(a) < 20` becomes `Hundredths(a) < 2000`, and `min`
stays exact.

## Model

| member | source | states |
|---|---|---|
| RatingRegions.CategorizeRegion | App/services/rating/rating_route.py:15-30 | The result is one of West, South, North, East, "Outside US"; it is "Outside US" exactly when the code is None or empty |
| RatingRegions.WestHas13 | App/services/rating/rating_route.py:11 | The West set has 13 distinct codes |
| RatingRegions.SouthHas15 | App/services/rating/rating_route.py:12 | The South set has 15 distinct codes |
| RatingRegions.NorthHas23 | App/services/rating/rating_route.py:13 | The North set has 23 distinct codes |
| RatingRegions.WestSouthDisjoint | App/services/rating/rating_route.py:11-12 | No code is both West and South |
| RatingRegions.WestNorthDisjoint | App/services/rating/rating_route.py:11-13 | No code is both West and North |
| RatingRegions.SouthNorthDisjoint | App/services/rating/rating_route.py:12-13 | No code is both South and North |
| RatingRegions.StateSetsDisjoint | App/services/rating/rating_route.py:11-13 | The three region sets are pairwise disjoint |
| RatingRegions.StateSetsPartition | App/services/rating/rating_route.py:11-13 | The sets are pairwise disjoint, of sizes 13, 15 and 23, and cover 51 codes together |
| RatingRegions.CodesAreUpperCase | App/services/rating/rating_route.py:11-13 | Every listed code is two upper-case letters, so the normalised key can match it |
| RatingRegions.MembersGetTheirLabel | App/services/rating/rating_route.py:20-27 | A code in a set gets that set's label |
| RatingRegions.CategorizeUsesNormalizedKey | App/services/rating/rating_route.py:17-30 | Two non-empty codes with the same upper-cased, stripped key get the same label |
| RatingRegions.UnknownCodesAreEast | App/services/rating/rating_route.py:28-30 | A non-empty code whose key is in no set is East |
| RegionExamples.CategorizeCaseExamples | App/services/rating/rating_route.py:15-27 | "TX" and "tx" are both South |
| RegionExamples.CategorizeSpacedExample | App/services/rating/rating_route.py:15-27 | Surrounding whitespace is stripped: " TX " is South |
| RegionExamples.CategorizeNorthExample | App/services/rating/rating_route.py:15-27 | "ny" is North |
| RegionExamples.CategorizeUnknownExample | App/services/rating/rating_route.py:28-30 | "XX" is in no set and is East |
| RegionExamples.CategorizeBlankExample | App/services/rating/rating_route.py:15-30 | The whitespace-only " " is truthy, strips to nothing and is East |
| RatingRegions.WestArePatternCodes | App/services/rating/rating_route.py:38 | Every western code is accepted by the address pattern's alternation |
| RatingRegions.SouthArePatternCodes | App/services/rating/rating_route.py:38 | Every southern code is accepted by the address pattern's alternation |
| RatingRegions.NorthArePatternCodes | App/services/rating/rating_route.py:38 | Every northern code is accepted by the address pattern's alternation |
| RatingRegions.StatesArePatternCodes | App/services/rating/rating_route.py:38 | Every code of the three sets is accepted by the address pattern's alternation |
| RatingRegions.PatternCodesAreStatesOrTerritories | App/services/rating/rating_route.py:38 | Every code the pattern accepts is in a set, or is PR or VI |
| RatingRegions.SearchPos | App/services/rating/rating_route.py:38-42 | The position found holds a pattern code at a word boundary, with no such code earlier; None means no position from i on matches |
| RatingRegions.SearchCode | App/services/rating/rating_route.py:38-42 | A result is a two-letter pattern code at a word boundary, with no such code earlier; None means no position matches |
| RatingRegions.ExtractStateFromAddress | App/services/rating/rating_route.py:32-44 | A missing or empty address gives None; any result is a two-letter pattern code |
| RatingRegions.ExtractStateIsLeftmostMatch | App/services/rating/rating_route.py:38-44 | The result is the leftmost bounded match in the upper-cased address, and None iff there is none |
| NarrativeSections.AllSectionsComplete | App/services/rating/rating_route.py:56-102 | The nine sections are all listed |
| NarrativeSections.SectionKeyIsNarrativeKey | App/services/rating/rating_route.py:56-102 | Each section's key is one of the output keys |
| NarrativeSections.SectionKeyInjective | App/services/rating/rating_route.py:56-102 | Distinct sections have distinct keys |
| NarrativeSections.SectionOf | App/services/rating/rating_route.py:56-102 | A key found maps back to a section with that key |
| NarrativeSections.SectionOfKey | App/services/rating/rating_route.py:56-102 | Looking up a section's key gives the section back |
| NarrativeSections.SectionOfNarrativeKey | App/services/rating/rating_route.py:56-102 | A key names a section iff it is one of the nine output keys |
| RatingNarrative.NotPlaceholderWitness | App/services/rating/rating_route.py:54 | A text with a non-space character outside "noe" in its lead is kept by `get_field` |
| RatingNarrative.WitnessInLead | App/services/rating/rating_route.py:56-102 | Each fallback's lead has such a character |
| RatingNarrative.FallbackIsUsable | App/services/rating/rating_route.py:52-102 | Every fallback text passes `get_field`'s test, so a fallback is never itself replaced |
| RatingNarrative.GetField | App/services/rating/rating_route.py:52-54 | The stored value when it passes the test, and otherwise either that value or the fallback, never anything else |
| RatingNarrative.FormatNarrative | App/services/rating/rating_route.py:56-102 | The output has exactly the nine section keys |
| RatingNarrative.FormatNarrativeSection | App/services/rating/rating_route.py:52-102 | Each section holds the input's value when that passes the test, else the section's fallback |
| RatingNarrative.FormatNarrativeLookup | App/services/rating/rating_route.py:52-54 | Each section's entry is `get_field` of its key with its fallback |
| RatingNarrative.FormatNarrativeIsUsable | App/services/rating/rating_route.py:52-102 | Every section of the output passes `get_field`'s test |
| RatingNarrative.FormatNarrativeIdempotent | App/services/rating/rating_route.py:47-102 | Formatting an already formatted narrative changes nothing |
| RatingNarrative.FormatNarrativeExample | App/services/rating/rating_route.py:52-60 | A "None" vehicle overview is replaced by its fallback |
| AuditFields.FieldIndex | App/services/rating/rating_route.py:122-124 | Every field is listed in the required list |
| AuditFields.RequiredFieldsDistinct | App/services/rating/rating_route.py:122-124 | The 23 required fields are distinct |
| AuditFields.FieldKeyInjective | App/services/rating/rating_route.py:122-124 | Distinct fields have distinct keys |
| AuditFields.KeysBeforeStep | App/services/rating/rating_route.py:126 | The keys seen grow by one field per step of the loop |
| AuditFields.KeyNotBefore | App/services/rating/rating_route.py:126 | A field's key is not among the keys before it |
| AuditFields.FieldKeyIsRequired | App/services/rating/rating_route.py:122-126 | Every field's key is a required key |
| RatingAudit.FirstHardMissingAt | App/services/rating/rating_route.py:126-131 | The position of the first field from i on that is absent and not nullable, every field before it being present or nullable; None iff there is none |
| RatingAudit.HardMissingStep | App/services/rating/rating_route.py:126-131 | A fatal absence at position i is the first from i on; otherwise the search from i goes on at i + 1 |
| RatingAudit.FirstHardMissingIsAt | App/services/rating/rating_route.py:126-131 | A fatal absence at i with none before it is the field the loop reports |
| RatingAudit.FirstHardMissing | App/services/rating/rating_route.py:126-131 | The first absent field that is not nullable, with every earlier one present or nullable; None iff there is none |
| RatingAudit.WithNulls | App/services/rating/rating_route.py:126-129 | The keys are the reply's plus the required ones; existing entries are kept and every added entry is None |
| RatingAudit.PayloadDefault | App/services/rating/rating_route.py:147-168 | A nullable field defaults to None; the default is truthy only for the badge, the buyer message and the quote type |
| RatingAudit.WithNullsKeeps | App/services/rating/rating_route.py:126-129 | Back-filling adds exactly the missing required keys and keeps every existing entry |
| RatingAudit.WithNullsField | App/services/rating/rating_route.py:126-129 | After a passing check, each required key is present, either as given or as None when it was absent and nullable |
| RatingAudit.NullsForStep | App/services/rating/rating_route.py:128-129 | Each loop step sets to None only an absent key not yet handled |
| RatingAudit.PartlyCompletedEnds | App/services/rating/rating_route.py:126-129 | Before the loop the reply is unchanged; after all fields it is the reply with nulls filled in |
| RatingAudit.CheckStep | App/services/rating/rating_route.py:126-129 | At field i the key is in the partly completed reply iff the model sent it, and one more step either keeps the reply or adds None under that key |
| RatingAudit.CheckRequired | App/services/rating/rating_route.py:126-131 | The loop fails iff a hard field is missing, naming the first one, and otherwise returns the result with nulls filled in |
| RatingAudit.BackfillRegion | App/services/rating/rating_route.py:133-137 | A truthy region is kept; otherwise a truthy state is categorised, or "Outside US" is used; a non-string state raises its AttributeError; nothing else changes |
| RatingAudit.ErrorPayload | App/services/rating/rating_route.py:174-188 | An error payload has exactly `error` and `raw_response` |
| RatingAudit.SuccessPayload | App/services/rating/rating_route.py:146-172 | The success payload has exactly the required keys |
| RatingAudit.SuccessPayloadHasNoError | App/services/rating/rating_route.py:146-172 | A success payload has no `error` key |
| RatingAudit.SuccessPayloadAt | App/services/rating/rating_route.py:146-172 | Each key holds the result's value or its default, and the narrative holds `{formatted: ...}` |
| RatingAudit.SuccessPayloadCopiesFields | App/services/rating/rating_route.py:147-168 | With all keys present, every field but the narrative is copied unchanged |
| RatingAudit.NarrativeRequired | App/services/rating/rating_route.py:122-131 | A reply that passes the check has a narrative, since the narrative is not nullable |
| RatingAudit.NarrativeAfterBackfill | App/services/rating/rating_route.py:126-141 | The narrative the formatter reads after the back-fill is the one the model sent |
| RatingAudit.SuccessPayloadShape | App/services/rating/rating_route.py:126-172 | After a passing check and back-fill, the payload has the required keys, no error, a truthy region and the formatted narrative |
| RatingAudit.AuditDeal | App/services/rating/rating_route.py:106-188 | Each outcome of the call, parse, check and back-fill gives its error payload or the success payload; a response has `error` iff it has exactly `error` and `raw_response` |
| DocumentAi.InHeaderIff | App/services/extraction/extract_route.py:83-88 | The polygon test adds nothing: a layout is in the header iff it has a normalized vertex and the mean y is below the threshold |
| DocumentAi.InHeaderMonotone | App/services/extraction/extract.py:59-69 | A layout in the 0.10 band is also in the 0.15 band |
| DocumentAi.AllVerticesInHeader | App/services/extraction/extract_route.py:84-88 | A layout whose normalized vertices all lie above the threshold is in the header |
| PyStr.AfterLastIsLastPart | App/services/extraction/extract_route.py:41 | `rsplit('.', 1)[-1]` is a dot-free suffix, preceded by a dot unless it is the whole string |
| PyStr.ContainsIff | App/services/extraction/document_extract.py:43 | `sub in s` iff `sub` occurs at some position of `s` |
| ExtractRoute.AnchorText | App/services/extraction/extract_route.py:20-26 | The text is no longer than the document text, and empty when the anchor has no segment |
| ExtractRoute.AnchorTextClamps | App/services/extraction/extract_route.py:23-26 | With non-negative indices, the result is the first segment's range clamped to the text, empty when start >= end |
| ExtractRoute.AnchorTextIgnoresLaterSegments | App/services/extraction/extract_route.py:23 | Segments after the first do not change the result |
| ExtractRoute.AnchorTextMissingEnd | App/services/extraction/extract_route.py:25-26 | A first segment with no end index gives "" |
| ExtractRoute.Extension | App/services/extraction/extract_route.py:41 | The extension starts with its dot and holds no other dot |
| ExtractRoute.FirstUnsupported | App/services/extraction/extract_route.py:40-46 | The first file whose extension is not in the map, with every earlier one supported; None iff all are supported |
| ExtractRoute.PlanFor | App/services/extraction/extract_route.py:50-62 | One file ending in ".pdf" (any case) is sent as is, iff that holds; any other upload is converted from all its files |
| ExtractRoute.PageLogoAppend | App/services/extraction/extract_route.py:81-92 | The header filter keeps block order: it distributes over concatenation |
| ExtractRoute.PageLogoMembers | App/services/extraction/extract_route.py:81-92 | An entry is in `logo_text` iff some block has non-empty text, a normalized vertex and a mean y below 0.15, and yields it |
| ExtractRoute.PageLogoHasText | App/services/extraction/extract_route.py:81-92 | Every entry has non-empty text, and there are no more entries than blocks |
| ExtractRoute.PageFieldsOnePerField | App/services/extraction/extract_route.py:95-102 | One entry per form field, in order |
| ExtractRoute.FieldEntryTrimmed | App/services/extraction/extract_route.py:96-97 | Field names and values carry no edge whitespace |
| ExtractRoute.PageText | App/services/extraction/extract_route.py:112-116 | The page text is empty without anchored blocks, and otherwise as long as their texts together plus one space between each pair |
| ExtractRoute.JoinLength | App/services/extraction/extract_route.py:112-116 | The joined page text has the parts' total length plus one separator between each pair |
| ExtractRoute.DocAprs | App/services/extraction/extract_route.py:109-121 | Every collected candidate is a numeral of at most two integer and two fractional digits |
| ExtractRoute.AppendHeaderBlocks | App/services/extraction/extract_route.py:81-92 | The block loop appends exactly the page's header entries |
| ExtractRoute.AppendFormFields | App/services/extraction/extract_route.py:95-102 | The field loop appends exactly the page's field entries |
| ExtractRoute.ScanPages | App/services/extraction/extract_route.py:71-121 | The page loop collects the document's fields, header entries and APR candidates |
| ExtractRoute.UploadAndExtract | App/services/extraction/extract_route.py:29-145 | An unsupported file gives 400 with its extension; an OCR failure gives 500 with its message; otherwise the text, fields, header entries and least plausible APR |
| AprScan.DigitsAt | App/services/extraction/extract_route.py:109 | `\d{1,2}` greedily takes at most two digits, stopping early only at a non-digit |
| AprScan.SpacesAt | App/services/extraction/extract_route.py:109 | `\s*` takes the maximal run of whitespace |
| AprScan.MatchAt | App/services/extraction/extract_route.py:109 | A match at a position starts there and has its dot, fraction and '%' in order within the text |
| AprScan.MatchAtSound | App/services/extraction/extract_route.py:109 | Every match found satisfies the pattern |
| AprScan.MatchAtComplete | App/services/extraction/extract_route.py:109 | Any way the pattern matches at a position is the one found there, so backtracking cannot give another |
| AprScan.MatchTable | App/services/extraction/extract_route.py:119 | The table holds the match at every position |
| AprScan.MatchesFrom | App/services/extraction/extract_route.py:119 | The scan's matches lie within the text from the start position |
| AprScan.MatchesFromInOrder | App/services/extraction/extract_route.py:119 | The scan's matches are table matches, in order, each ending before the next begins |
| AprScan.MatchesFromCoverAll | App/services/extraction/extract_route.py:119 | Every position where a match begins lies inside one of the scan's matches |
| AprScan.Hundredths | App/services/extraction/extract_route.py:130 | The value of a candidate is below 100.00 |
| AprScan.MatchNumeral | App/services/extraction/extract_route.py:109 | The captured group of a match is a numeral |
| AprScan.FindAll | App/services/extraction/extract_route.py:119 | Every result of `findall` is a numeral |
| AprScan.FoundMatchesSound | App/services/extraction/extract_route.py:119 | Each match `findall` reports is the match at its start, and the matches do not overlap |
| AprScan.FoundMatchesCover | App/services/extraction/extract_route.py:119 | Every position where the pattern matches lies inside a reported match |
| AprScan.FindAllLeftmost | App/services/extraction/extract_route.py:119 | `findall`'s matches are real, ordered and non-overlapping, and no possible match is skipped |
| AprScan.MinOfIsLeast | App/services/extraction/extract_route.py:132 | `min` is a member no greater than any element |
| AprScan.Plausible | App/services/extraction/extract_route.py:130 | No more values than candidates, each below 20.00 |
| AprScan.SelectApr | App/services/extraction/extract_route.py:127-134 | None iff no candidate value is below 20; otherwise a value below 20 taken from the plausible ones |
| AprScan.PlausibleKeeps | App/services/extraction/extract_route.py:130 | Every candidate below 20 is kept |
| AprScan.PlausibleSound | App/services/extraction/extract_route.py:130 | Every kept value is below 20 and comes from a candidate |
| AprScan.SelectAprIsLeastPlausible | App/services/extraction/extract_route.py:127-134 | None iff no candidate is below 20; otherwise the least candidate value below 20 |
| AprExamples.FindAllExample | App/services/extraction/extract_route.py:109-119 | `findall` on "6.49 %" gives ["6.49"] |
| AprExamples.Hundredths1899 | App/services/extraction/extract_route.py:130 | "18.99" is a numeral worth 1899 hundredths |
| AprExamples.Hundredths649 | App/services/extraction/extract_route.py:130 | "6.49" is a numeral worth 649 hundredths |
| AprExamples.Hundredths2500 | App/services/extraction/extract_route.py:130 | "25.00" is a numeral worth 2500 hundredths |
| AprExamples.PlausibleExample | App/services/extraction/extract_route.py:130 | From "18.99", "6.49" and "25.00" the values below 20 are kept in order and 25.00 is dropped |
| AprExamples.SelectAprExample | App/services/extraction/extract_route.py:127-134 | From "18.99", "6.49" and "25.00", 6.49 is selected |
| RouteExamples.UpperCaseExtensionPasses | App/services/extraction/extract_route.py:41-53 | "X.PDF" has extension ".pdf", passes, and is sent as a single PDF |
| RouteExamples.DotlessPdfIsConverted | App/services/extraction/extract_route.py:41-61 | A file named "pdf" passes the check but is sent to the image converter |
| RouteExamples.DoubleExtensionUsesLastPart | App/services/extraction/extract_route.py:40-46 | "scan.tar.gz" has extension ".gz" and is the first rejected file |
| Extract.GetText | App/services/extraction/extract.py:23-32 | The fragment loop returns the layout's text: "" without segments, else every segment's slice joined in order and stripped |
| Extract.LayoutTextTrimmed | App/services/extraction/extract.py:32 | The text has no edge whitespace, and stripping it again changes nothing |
| Extract.ConcatAppend | App/services/extraction/extract.py:32 | Joining two runs of fragments is joining each and concatenating |
| Extract.FragmentsAppend | App/services/extraction/extract.py:28-31 | The fragments of two runs of segments are those of each run, in order |
| Extract.JoinedSlicesSplit | App/services/extraction/extract.py:28-32 | Before stripping, a layout's text is the text of its first segments followed by that of the rest |
| Extract.SingleSegmentAgreesWithRoute | App/services/extraction/extract.py:23-32 | For one segment with an end index, `get_text` equals the upload route's lookup, stripped |
| Extract.MissingEndDiffers | App/services/extraction/extract.py:29-31 | On a hypothetical `None` end index, `get_text` would read to the end of the text where the upload route's lookup reads nothing |
| Extract.HeaderRecordsMembers | App/services/extraction/extract.py:61-73 | A record is in `logo_text` iff some block has non-empty text, a normalized vertex and a mean y below 0.10, and yields it |
| Extract.HeaderRecordsAppend | App/services/extraction/extract.py:61-73 | The header filter keeps block order: it distributes over concatenation |
| Extract.FieldRecordsShape | App/services/extraction/extract.py:77-91 | One record per form field, in order; each confidence is None exactly when its sub-layout is unset |
| Extract.CellRecordsShape | App/services/extraction/extract.py:101-112 | One record per cell, in order |
| Extract.RowRecordsShape | App/services/extraction/extract.py:114-122 | As many rows as the table part, each with as many cells, and every row and column span copied unchanged |
| Extract.PageRecordsShape | App/services/extraction/extract.py:49-55 | One record per page, in page order, with the page number copied |
| Extract.ExtractCells | App/services/extraction/extract.py:101-112 | The cell loop builds exactly the row's cell records |
| Extract.ExtractRows | App/services/extraction/extract.py:114-122 | The row loop builds exactly the part's row records |
| Extract.ExtractTable | App/services/extraction/extract.py:95-124 | The table object holds its column count and its header and body row records |
| Extract.ExtractHeaderText | App/services/extraction/extract.py:61-73 | The block loop builds exactly the page's header records |
| Extract.ExtractFormFields | App/services/extraction/extract.py:77-91 | The field loop builds exactly the page's field records |
| Extract.ExtractTables | App/services/extraction/extract.py:94-124 | The table loop builds exactly the page's table records |
| Extract.ExtractTextSync | App/services/extraction/extract.py:45-128 | The page loop builds exactly one record per page |
| DocumentExtract.MediaType | App/services/extraction/document_extract.py:41-46 | The media type sent is an image type or "application/pdf" |
| DocumentExtract.MediaTypeNonImage | App/services/extraction/document_extract.py:43-46 | A non-image content type is sent as a PDF iff it contains "pdf" in any case, and as JPEG otherwise |
| DocumentExtract.MediaTypePdfIff | App/services/extraction/document_extract.py:41-46 | "application/pdf" is chosen iff the type does not start with "image" and contains "pdf" in any case |
| DocumentExtract.FirstIndexOf | App/services/extraction/document_extract.py:117 | The first position of a character, with none before; None when it does not occur |
| DocumentExtract.LastIndexOf | App/services/extraction/document_extract.py:117 | The last position of a character, with none after; None when it does not occur |
| DocumentExtract.JsonBlock | App/services/extraction/document_extract.py:117 | A block found starts with '{' and ends with '}' |
| DocumentExtract.JsonBlockIsSearch | App/services/extraction/document_extract.py:117-118 | A block is found iff some '{' has a '}' after it; it starts at the leftmost possible start and, being greedy, ends at the rightmost '}' |
| DocumentExtract.JsonBlockOfWrapped | App/services/extraction/document_extract.py:115-119 | An object wrapped in text with no '{' before and no '}' after is recovered exactly |
| DocumentExtract.JsonBlockIdempotent | App/services/extraction/document_extract.py:117-119 | Cutting the block out of a block changes nothing |
| DocumentExtract.ErrorEntry | App/services/extraction/document_extract.py:130-137 | A handler returns a dictionary with `error` alone |
| DocumentExtract.ShapeResult | App/services/extraction/document_extract.py:123-128 | Dictionary data gives exactly logos, total_logos_found, confidence_score and raw_response; other data gives the AttributeError of `.get` |
| DocumentExtract.ReplyData | App/services/extraction/document_extract.py:112-121 | Content that parses is used as it is; the step fails iff neither the content nor a block found in it parses, with the block's parse error |
| DocumentExtract.ExtractLogoText | App/services/extraction/document_extract.py:24-137 | A missing or empty key gives the key error; every result is a single error entry, the API error with details, or the four success keys |
| DocumentExtract.MissingKeyShortCircuits | App/services/extraction/document_extract.py:33-35 | A missing or empty key gives the key error, whatever the request would return |
| DocumentExtract.ApiErrorCarriesStatus | App/services/extraction/document_extract.py:102-106 | A non-200 status gives only `error` and `details`, and the status reads back from the message |
| DocumentExtract.DirectParseWins | App/services/extraction/document_extract.py:112-113 | Content that parses is used as it is |
| DocumentExtract.NoBlockDefaults | App/services/extraction/document_extract.py:114-121 | Unparsable content without a block gives the defaults: no logos, 0 and 0 |
| DocumentExtract.BadBlockIsOneError | App/services/extraction/document_extract.py:117-137 | A block that does not parse either ends in the generic handler's single error entry |
| DocumentExtract.SuccessDefaults | App/services/extraction/document_extract.py:123-128 | Each success field is the reply's own value or [] / 0 / 0, and raw_response is the whole reply |
| DocumentExtractExamples.UpperCaseImageIsJpeg | App/services/extraction/document_extract.py:41-46 | "IMAGE/PNG" is sent as "image/jpeg" |
| DocumentExtractExamples.MixedCasePdfIsPdf | App/services/extraction/document_extract.py:43-44 | "Application/PDF" is sent as "application/pdf" |
| DocumentExtractExamples.ImageTypeIsKept | App/services/extraction/document_extract.py:41-42 | "image/png" is sent unchanged |
| DocumentExtractExamples.FencedReplyIsRepaired | App/services/extraction/document_extract.py:115-119 | A reply fenced as markdown gives back the object inside the fence |
| DocumentExtractExamples.ReversedBracesGiveNoBlock | App/services/extraction/document_extract.py:117-121 | "} {" holds no block |

## Left out

- The OCR call, the HTTP request to the vision service, `img2pdf.convert`, file reads, base64 encoding and environment lookups are inputs. The OCR result and the request outcome are function parameters, and the API key is an `Option`.
- `json.loads` is a parameter that returns a value or the parser's error message. The audit reply's parse is an outcome datatype.
- The call to the language-model audit service (`call_groq_audit`) is not part of this model. Its reply or its failure is the input to `AuditDeal`.
- Floating point is not modelled. Coordinates and confidences are `real` and only compared or copied. APR values are exact hundredths.
- Strings are ASCII: `upper`, `lower`, `strip`, `\d`, `\s` and `\b` use the ASCII character classes, not Unicode's.
- Exception messages are reproduced only where the model can know them: the AttributeError of `.upper` and `.get` on non-strings and non-dictionaries. Other exception texts arrive with the failure as a string.
- The page dimension read in both header filters is unused by the source and is not modelled.
- `normalized_pricing` passed to `format_narrative` is unused by the source and is not modelled.
- The values of the upload route's MIME map are never used; only its keys are modelled, as the supported extensions.
- The `except ValueError` around the APR selection cannot fire, because every candidate is a numeral. It is not modelled.
- Segment indices are `Option<int>`, so that the `or 0` guards and the unguarded end slice have something to act on. `None` is a hypothetical index: Document AI's `start_index` and `end_index` are int64 fields, and an unset one reads as 0, so the case `Extract.MissingEndDiffers` describes never reaches the program. Proto fields other than those read are left out.
- `Extract.ExtractTable`: assumes the table message carries an integer `detected_columns` and copies it. Document AI v1's `Table` has no such field, so in the source the read at extract.py:96 would raise AttributeError; the model does not capture that failure.
- The lazily created module-level vision client and its credential check are not modelled. The route reads the key itself.
- `DocumentExtract.ExtractLogoText`: the reply content is modelled as a string. A non-string content (for example `null`) would make `json.loads` raise a TypeError, which is not modelled.
- `RatingAudit.AuditDeal`: a parsed reply is either a decode error or a JSON object. A top-level list, string, number or null cannot be represented; in the source those reach the ValueError or TypeError paths of `audit_deal` (rating_route.py:126-131, 174-188). Parsing a `None` content with `json.loads` is not modelled either.
