/** The structured extraction path: `extract_text_sync` turns an OCR
    document into one record per page holding its header ("logo") text, its
    form fields as name/value records and its tables as rows of cell
    records. The file read and the OCR call that produce the document are
    not modelled: the document is the input. */
module Extract {
  import opened Wrappers
  import opened PyStr
  import opened DocumentAi
  import ExtractRoute

  // ===========================================================================
  // Layout text

  /** One segment's slice `text[start_index or 0 : end_index]`; a missing
      end index slices to the end of the text. */
  function SegmentSlice(text: string, seg: Segment): string {
    Slice(text, Some(ExtractRoute.OrZero(seg.startIndex)), seg.endIndex)
  }

  /** The fragments `get_text` collects, one per segment, in order. */
  function Fragments(text: string, segs: seq<Segment>): seq<string> {
    if |segs| == 0 then []
    else Fragments(text, segs[..|segs| - 1]) + [SegmentSlice(text, segs[|segs| - 1])]
  }

  /** `"".join(parts)`. */
  function Concat(parts: seq<string>): string {
    if |parts| == 0 then [] else Concat(parts[..|parts| - 1]) + parts[|parts| - 1]
  }

  /** What `get_text` returns for a layout. */
  function LayoutText(text: string, l: Layout): string {
    if l.anchor.segments == [] then [] else Strip(Concat(Fragments(text, l.anchor.segments)))
  }

  /** `get_text`: "" for a layout without an anchor or without segments;
      otherwise the segments' slices joined in order and stripped. */
  method GetText(text: string, l: Layout) returns (r: string)
    ensures r == LayoutText(text, l)
  {
    if !LayoutSet(l) || !AnchorSet(l.anchor) || l.anchor.segments == [] {
      return "";
    }
    var segs := l.anchor.segments;
    var fragments: seq<string> := [];
    var i := 0;
    while i < |segs|
      invariant i <= |segs|
      invariant fragments == Fragments(text, segs[..i])
    {
      var seg := segs[i];
      var start := ExtractRoute.OrZero(seg.startIndex);
      var end := seg.endIndex;
      fragments := fragments + [Slice(text, Some(start), end)];
      assert segs[..i + 1][..i] == segs[..i];
      i := i + 1;
    }
    assert segs[..i] == segs;
    r := Strip(Concat(fragments));
  }

  /** The text of a layout carries no edge whitespace, and stripping it
      again changes nothing. */
  lemma LayoutTextTrimmed(text: string, l: Layout)
    ensures var t := LayoutText(text, l);
            (t != [] ==> !IsSpace(t[0]) && !IsSpace(t[|t| - 1])) && Strip(t) == t
  {
    if l.anchor.segments != [] {
      var raw := Concat(Fragments(text, l.anchor.segments));
      StripHasNoEdgeSpace(raw);
      StripIdempotent(raw);
    }
  }

  /** Segment slices are joined in segment order. */
  lemma {:induction false} ConcatAppend(xs: seq<string>, ys: seq<string>)
    ensures Concat(xs + ys) == Concat(xs) + Concat(ys)
    decreases |ys|
  {
    if |ys| == 0 {
      assert xs + ys == xs;
    } else {
      var init := ys[..|ys| - 1];
      var last := ys[|ys| - 1];
      assert (xs + ys)[..|xs + ys| - 1] == xs + init;
      assert (xs + ys)[|xs + ys| - 1] == last;
      ConcatAppend(xs, init);
      calc {
        Concat(xs + ys);
        Concat(xs + init) + last;
        (Concat(xs) + Concat(init)) + last;
        Concat(xs) + (Concat(init) + last);
      }
    }
  }

  lemma {:induction false} FragmentsAppend(text: string, xs: seq<Segment>, ys: seq<Segment>)
    ensures Fragments(text, xs + ys) == Fragments(text, xs) + Fragments(text, ys)
    decreases |ys|
  {
    if |ys| == 0 {
      assert xs + ys == xs;
    } else {
      var init := ys[..|ys| - 1];
      assert (xs + ys)[..|xs + ys| - 1] == xs + init;
      assert (xs + ys)[|xs + ys| - 1] == ys[|ys| - 1];
      FragmentsAppend(text, xs, init);
    }
  }

  /** Before stripping, the text of a layout whose segments split into two
      runs is the text of the first run followed by that of the second. */
  lemma JoinedSlicesSplit(text: string, xs: seq<Segment>, ys: seq<Segment>)
    ensures Concat(Fragments(text, xs + ys)) == Concat(Fragments(text, xs)) + Concat(Fragments(text, ys))
  {
    FragmentsAppend(text, xs, ys);
    ConcatAppend(Fragments(text, xs), Fragments(text, ys));
  }

  lemma ConcatSingle(x: string)
    ensures Concat([x]) == x
  {
    assert [x][..0] == [];
  }

  lemma FragmentsSingle(text: string, seg: Segment)
    ensures Fragments(text, [seg]) == [SegmentSlice(text, seg)]
  {
    assert [seg][..0] == [];
  }

  /** For one segment with an end index, `get_text` is the upload route's
      first-segment lookup, stripped. */
  lemma SingleSegmentAgreesWithRoute(text: string, l: Layout)
    requires |l.anchor.segments| == 1 && l.anchor.segments[0].endIndex.Some?
    ensures LayoutText(text, l) == Strip(ExtractRoute.AnchorText(text, l.anchor))
  {
    var seg := l.anchor.segments[0];
    assert l.anchor.segments == [seg];
    FragmentsSingle(text, seg);
    ConcatSingle(SegmentSlice(text, seg));
  }

  /** Without an end index the two paths part: `get_text` reads to the end
      of the text while the upload route's lookup reads nothing. */
  lemma MissingEndDiffers(text: string, l: Layout)
    requires l.anchor.segments == [Segment(None, None)]
    ensures LayoutText(text, l) == Strip(text)
    ensures ExtractRoute.AnchorText(text, l.anchor) == []
  {
    var seg := Segment(None, None);
    assert SegmentSlice(text, seg) == text by {
      assert ExtractRoute.OrZero(seg.startIndex) == 0;
      if |text| > 0 {
        assert text[0..|text|] == text;
      }
    }
    FragmentsSingle(text, seg);
    ConcatSingle(text);
  }

  // ===========================================================================
  // Records

  const ExtractHeaderThreshold: real := 0.10

  /** `{"text": ..., "confidence": ...}`; the confidence is None where the
      source writes None. */
  datatype TextRecord = TextRecord(text: string, confidence: Option<real>)

  datatype FieldRecord = FieldRecord(fieldName: TextRecord, fieldValue: TextRecord)

  datatype CellRecord = CellRecord(text: string, confidence: real, rowSpan: int, colSpan: int)

  datatype TableRecord = TableRecord(detectedColumns: int, headerRows: seq<seq<CellRecord>>, bodyRows: seq<seq<CellRecord>>)

  datatype PageRecord = PageRecord(pageNumber: int, logoText: seq<TextRecord>, formFields: seq<FieldRecord>, tables: seq<TableRecord>)

  /** The test a block passes to enter a page's `logo_text`. */
  predicate IsHeaderBlock(text: string, b: Block) {
    LayoutText(text, b.layout) != [] && InHeader(b.layout, ExtractHeaderThreshold)
  }

  function HeaderRecordOf(text: string, b: Block): TextRecord {
    TextRecord(LayoutText(text, b.layout), Some(b.layout.confidence))
  }

  function HeaderRecords(text: string, blocks: seq<Block>): seq<TextRecord> {
    if |blocks| == 0 then []
    else
      var b := blocks[|blocks| - 1];
      HeaderRecords(text, blocks[..|blocks| - 1]) + (if IsHeaderBlock(text, b) then [HeaderRecordOf(text, b)] else [])
  }

  /** A record is in a page's `logo_text` iff some block of the page passes
      the test and yields it. */
  lemma {:induction false} HeaderRecordsMembers(text: string, blocks: seq<Block>, e: TextRecord)
    ensures e in HeaderRecords(text, blocks)
        <==> exists i :: 0 <= i < |blocks| && IsHeaderBlock(text, blocks[i]) && e == HeaderRecordOf(text, blocks[i])
  {
    if |blocks| > 0 {
      var init := blocks[..|blocks| - 1];
      HeaderRecordsMembers(text, init, e);
      if e in HeaderRecords(text, blocks) && e !in HeaderRecords(text, init) {
        assert IsHeaderBlock(text, blocks[|blocks| - 1]);
      }
      if exists i :: 0 <= i < |blocks| && IsHeaderBlock(text, blocks[i]) && e == HeaderRecordOf(text, blocks[i]) {
        var i :| 0 <= i < |blocks| && IsHeaderBlock(text, blocks[i]) && e == HeaderRecordOf(text, blocks[i]);
        if i < |blocks| - 1 {
          assert init[i] == blocks[i];
        }
      }
    }
  }

  /** The header filter keeps block order: it distributes over
      concatenation. */
  lemma {:induction false} HeaderRecordsAppend(text: string, xs: seq<Block>, ys: seq<Block>)
    ensures HeaderRecords(text, xs + ys) == HeaderRecords(text, xs) + HeaderRecords(text, ys)
    decreases |ys|
  {
    if |ys| == 0 {
      assert xs + ys == xs;
    } else {
      var init := ys[..|ys| - 1];
      assert (xs + ys)[..|xs + ys| - 1] == xs + init;
      assert (xs + ys)[|xs + ys| - 1] == ys[|ys| - 1];
      HeaderRecordsAppend(text, xs, init);
    }
  }

  /** The record of a form field; a sub-layout that is not set gives a None
      confidence. */
  function FieldRecordOf(text: string, f: FormField): FieldRecord {
    FieldRecord(
      TextRecord(LayoutText(text, f.fieldName), if LayoutSet(f.fieldName) then Some(f.fieldName.confidence) else None),
      TextRecord(LayoutText(text, f.fieldValue), if LayoutSet(f.fieldValue) then Some(f.fieldValue.confidence) else None))
  }

  function FieldRecords(text: string, fields: seq<FormField>): seq<FieldRecord> {
    if |fields| == 0 then []
    else FieldRecords(text, fields[..|fields| - 1]) + [FieldRecordOf(text, fields[|fields| - 1])]
  }

  /** One record per form field, in order; each confidence is None exactly
      when its sub-layout is absent. */
  lemma {:induction false} FieldRecordsShape(text: string, fields: seq<FormField>)
    ensures |FieldRecords(text, fields)| == |fields|
    ensures forall i :: 0 <= i < |fields| ==> FieldRecords(text, fields)[i] == FieldRecordOf(text, fields[i])
    ensures forall i :: 0 <= i < |fields| ==>
              (FieldRecords(text, fields)[i].fieldName.confidence.None? <==> !LayoutSet(fields[i].fieldName))
              && (FieldRecords(text, fields)[i].fieldValue.confidence.None? <==> !LayoutSet(fields[i].fieldValue))
  {
    if |fields| > 0 {
      var init := fields[..|fields| - 1];
      FieldRecordsShape(text, init);
      forall i | 0 <= i < |fields| - 1 ensures FieldRecords(text, fields)[i] == FieldRecordOf(text, fields[i]) {
        assert init[i] == fields[i];
      }
    }
  }

  function CellRecordOf(text: string, c: Cell): CellRecord {
    CellRecord(LayoutText(text, c.layout), c.layout.confidence, c.rowSpan, c.colSpan)
  }

  function CellRecords(text: string, cells: seq<Cell>): seq<CellRecord> {
    if |cells| == 0 then []
    else CellRecords(text, cells[..|cells| - 1]) + [CellRecordOf(text, cells[|cells| - 1])]
  }

  function RowRecords(text: string, rows: seq<TableRow>): seq<seq<CellRecord>> {
    if |rows| == 0 then []
    else RowRecords(text, rows[..|rows| - 1]) + [CellRecords(text, rows[|rows| - 1].cells)]
  }

  function TableRecordOf(text: string, t: Table): TableRecord {
    TableRecord(t.detectedColumns, RowRecords(text, t.headerRows), RowRecords(text, t.bodyRows))
  }

  function TableRecords(text: string, tables: seq<Table>): seq<TableRecord> {
    if |tables| == 0 then []
    else TableRecords(text, tables[..|tables| - 1]) + [TableRecordOf(text, tables[|tables| - 1])]
  }

  /** One record per cell, in order, with the spans copied. */
  lemma {:induction false} CellRecordsShape(text: string, cells: seq<Cell>)
    ensures |CellRecords(text, cells)| == |cells|
    ensures forall j :: 0 <= j < |cells| ==> CellRecords(text, cells)[j] == CellRecordOf(text, cells[j])
  {
    if |cells| > 0 {
      var init := cells[..|cells| - 1];
      CellRecordsShape(text, init);
      forall j | 0 <= j < |cells| - 1 ensures CellRecords(text, cells)[j] == CellRecordOf(text, cells[j]) {
        assert init[j] == cells[j];
      }
    }
  }

  /** One row of records per row, each with as many records as the row has
      cells, and each cell's spans copied unchanged. */
  lemma {:induction false} RowRecordsShape(text: string, rows: seq<TableRow>)
    ensures |RowRecords(text, rows)| == |rows|
    ensures forall i :: 0 <= i < |rows| ==> |RowRecords(text, rows)[i]| == |rows[i].cells|
    ensures forall i, j :: 0 <= i < |rows| && 0 <= j < |rows[i].cells| ==>
              RowRecords(text, rows)[i][j].rowSpan == rows[i].cells[j].rowSpan
              && RowRecords(text, rows)[i][j].colSpan == rows[i].cells[j].colSpan
  {
    if |rows| > 0 {
      var init := rows[..|rows| - 1];
      RowRecordsShape(text, init);
      CellRecordsShape(text, rows[|rows| - 1].cells);
      forall i | 0 <= i < |rows| - 1 ensures RowRecords(text, rows)[i] == RowRecords(text, init)[i] {
      }
      forall i | 0 <= i < |rows| - 1 ensures rows[i] == init[i] {
      }
    }
  }

  function PageRecordOf(text: string, p: Page): PageRecord {
    PageRecord(p.pageNumber, HeaderRecords(text, p.blocks), FieldRecords(text, p.formFields), TableRecords(text, p.tables))
  }

  function PageRecords(text: string, pages: seq<Page>): seq<PageRecord> {
    if |pages| == 0 then []
    else PageRecords(text, pages[..|pages| - 1]) + [PageRecordOf(text, pages[|pages| - 1])]
  }

  /** `extracted["pages"]` has one record per page, in page order, with the
      page number copied. */
  lemma {:induction false} PageRecordsShape(text: string, pages: seq<Page>)
    ensures |PageRecords(text, pages)| == |pages|
    ensures forall i :: 0 <= i < |pages| ==> PageRecords(text, pages)[i] == PageRecordOf(text, pages[i])
    ensures forall i :: 0 <= i < |pages| ==> PageRecords(text, pages)[i].pageNumber == pages[i].pageNumber
  {
    if |pages| > 0 {
      var init := pages[..|pages| - 1];
      PageRecordsShape(text, init);
      forall i | 0 <= i < |pages| - 1 ensures PageRecords(text, pages)[i] == PageRecordOf(text, pages[i]) {
        assert init[i] == pages[i];
      }
    }
  }

  // ===========================================================================
  // The loops of `extract_text_sync`

  /** `extract_cells`. */
  method ExtractCells(text: string, rowCells: seq<Cell>) returns (cells: seq<CellRecord>)
    ensures cells == CellRecords(text, rowCells)
  {
    cells := [];
    var i := 0;
    while i < |rowCells|
      invariant i <= |rowCells|
      invariant cells == CellRecords(text, rowCells[..i])
    {
      var cell := rowCells[i];
      var t := GetText(text, cell.layout);
      cells := cells + [CellRecord(t, cell.layout.confidence, cell.rowSpan, cell.colSpan)];
      assert rowCells[..i + 1][..i] == rowCells[..i];
      i := i + 1;
    }
    assert rowCells[..i] == rowCells;
  }

  /** The rows of one part of a table, each through `extract_cells`. */
  method ExtractRows(text: string, rows: seq<TableRow>) returns (out: seq<seq<CellRecord>>)
    ensures out == RowRecords(text, rows)
  {
    out := [];
    var i := 0;
    while i < |rows|
      invariant i <= |rows|
      invariant out == RowRecords(text, rows[..i])
    {
      var rowCells := ExtractCells(text, rows[i].cells);
      out := out + [rowCells];
      assert rows[..i + 1][..i] == rows[..i];
      i := i + 1;
    }
    assert rows[..i] == rows;
  }

  /** One `table_obj`: the header rows, then the body rows. */
  method ExtractTable(text: string, table: Table) returns (r: TableRecord)
    ensures r == TableRecordOf(text, table)
  {
    var headerRows := ExtractRows(text, table.headerRows);
    var bodyRows := ExtractRows(text, table.bodyRows);
    r := TableRecord(table.detectedColumns, headerRows, bodyRows);
  }

  /** The block loop of one page: the header blocks' records. */
  method ExtractHeaderText(text: string, blocks: seq<Block>) returns (out: seq<TextRecord>)
    ensures out == HeaderRecords(text, blocks)
  {
    out := [];
    var i := 0;
    while i < |blocks|
      invariant i <= |blocks|
      invariant out == HeaderRecords(text, blocks[..i])
    {
      var block := blocks[i];
      var t := GetText(text, block.layout);
      if t != [] && PolySet(block.layout.poly) {
        var vertices := block.layout.poly.normalizedVertices;
        if vertices != [] && |vertices| > 0 {
          var avgY := MeanY(vertices);
          if avgY < ExtractHeaderThreshold {
            out := out + [TextRecord(t, Some(block.layout.confidence))];
          }
        }
      }
      assert blocks[..i + 1][..i] == blocks[..i];
      i := i + 1;
    }
    assert blocks[..i] == blocks;
  }

  /** The form-field loop of one page. */
  method ExtractFormFields(text: string, fields: seq<FormField>) returns (out: seq<FieldRecord>)
    ensures out == FieldRecords(text, fields)
  {
    out := [];
    var i := 0;
    while i < |fields|
      invariant i <= |fields|
      invariant out == FieldRecords(text, fields[..i])
    {
      var field := fields[i];
      var name := GetText(text, field.fieldName);
      var value := GetText(text, field.fieldValue);
      var confidence := if LayoutSet(field.fieldValue) then Some(field.fieldValue.confidence) else None;
      var nameConfidence := if LayoutSet(field.fieldName) then Some(field.fieldName.confidence) else None;
      out := out + [FieldRecord(TextRecord(name, nameConfidence), TextRecord(value, confidence))];
      assert fields[..i + 1][..i] == fields[..i];
      i := i + 1;
    }
    assert fields[..i] == fields;
  }

  /** The table loop of one page. */
  method ExtractTables(text: string, tables: seq<Table>) returns (out: seq<TableRecord>)
    ensures out == TableRecords(text, tables)
  {
    out := [];
    var i := 0;
    while i < |tables|
      invariant i <= |tables|
      invariant out == TableRecords(text, tables[..i])
    {
      var tableObj := ExtractTable(text, tables[i]);
      out := out + [tableObj];
      assert tables[..i + 1][..i] == tables[..i];
      i := i + 1;
    }
    assert tables[..i] == tables;
  }

  /** `extract_text_sync` after the OCR call: one `page_data` per page. */
  method ExtractTextSync(doc: Document) returns (pages: seq<PageRecord>)
    ensures pages == PageRecords(doc.text, doc.pages)
  {
    pages := [];
    var i := 0;
    while i < |doc.pages|
      invariant i <= |doc.pages|
      invariant pages == PageRecords(doc.text, doc.pages[..i])
    {
      var page := doc.pages[i];
      var logoText := ExtractHeaderText(doc.text, page.blocks);
      var formFields := ExtractFormFields(doc.text, page.formFields);
      var tables := ExtractTables(doc.text, page.tables);
      pages := pages + [PageRecord(page.pageNumber, logoText, formFields, tables)];
      assert doc.pages[..i + 1][..i] == doc.pages[..i];
      i := i + 1;
    }
    assert doc.pages[..i] == doc.pages;
  }
}
