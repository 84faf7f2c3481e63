/** The parts of a Document AI OCR result that the extraction services read:
    the document text, and per page its blocks, form fields and tables, each
    located by a layout (text anchor, confidence, bounding polygon).

    The messages follow protobuf conventions: an unset integer reads as 0, an
    unset repeated field as an empty sequence, and a message is truthy when
    one of its fields is set. A segment index is an `Option<int>` so that the
    `or 0` guards of the source have something to act on; `None` is an index
    the code sees as `None`. */
module DocumentAi {
  import opened Wrappers

  datatype Segment = Segment(startIndex: Option<int>, endIndex: Option<int>)

  /** `content` is the anchor's other field; only its being set matters. */
  datatype TextAnchor = TextAnchor(segments: seq<Segment>, content: string)

  datatype Vertex = Vertex(x: real, y: real)

  /** Pixel vertices and normalized (page-relative) vertices. */
  datatype BoundingPoly = BoundingPoly(vertices: seq<Vertex>, normalizedVertices: seq<Vertex>)

  datatype Layout = Layout(anchor: TextAnchor, confidence: real, poly: BoundingPoly)

  datatype Block = Block(layout: Layout)

  datatype FormField = FormField(fieldName: Layout, fieldValue: Layout)

  datatype Cell = Cell(layout: Layout, rowSpan: int, colSpan: int)

  datatype TableRow = TableRow(cells: seq<Cell>)

  /** `detectedColumns` is the value the source reads as the table's
      `detected_columns`, passed through unchanged. */
  datatype Table = Table(detectedColumns: int, headerRows: seq<TableRow>, bodyRows: seq<TableRow>)

  datatype Page = Page(pageNumber: int, blocks: seq<Block>, formFields: seq<FormField>, tables: seq<Table>)

  datatype Document = Document(text: string, pages: seq<Page>)

  /** `bool(text_anchor)`. */
  predicate AnchorSet(a: TextAnchor) {
    a.segments != [] || a.content != []
  }

  /** `bool(bounding_poly)`. */
  predicate PolySet(p: BoundingPoly) {
    p.vertices != [] || p.normalizedVertices != []
  }

  /** `bool(layout)`. */
  predicate LayoutSet(l: Layout) {
    AnchorSet(l.anchor) || l.confidence != 0.0 || PolySet(l.poly)
  }

  function SumY(vs: seq<Vertex>): real {
    if |vs| == 0 then 0.0 else SumY(vs[..|vs| - 1]) + vs[|vs| - 1].y
  }

  /** `sum(v.y for v in vertices) / len(vertices)`. */
  function MeanY(vs: seq<Vertex>): real
    requires |vs| > 0
  {
    SumY(vs) / (|vs| as real)
  }

  /** The position test of both header filters, as the source writes it: the
      layout has a bounding polygon, its normalized vertices are non-empty,
      and their mean y lies above `threshold` (y grows down the page). */
  predicate InHeader(l: Layout, threshold: real) {
    PolySet(l.poly)
    && l.poly.normalizedVertices != []
    && |l.poly.normalizedVertices| > 0
    && MeanY(l.poly.normalizedVertices) < threshold
  }

  /** The polygon test adds nothing to the vertex test: a block is in the
      header iff it has a normalized vertex and their mean y is below the
      threshold. */
  lemma InHeaderIff(l: Layout, threshold: real)
    ensures InHeader(l, threshold)
        <==> |l.poly.normalizedVertices| > 0 && MeanY(l.poly.normalizedVertices) < threshold
  {
  }

  /** A layout in the 0.10 band is in the 0.15 band. */
  lemma InHeaderMonotone(l: Layout, lo: real, hi: real)
    requires lo <= hi
    ensures InHeader(l, lo) ==> InHeader(l, hi)
  {
  }

  /** All vertices above the threshold put the mean above it too. */
  lemma {:induction false} SumYBelow(vs: seq<Vertex>, t: real)
    requires forall i :: 0 <= i < |vs| ==> vs[i].y < t
    ensures |vs| > 0 ==> SumY(vs) < (|vs| as real) * t
  {
    if |vs| > 1 {
      SumYBelow(vs[..|vs| - 1], t);
    }
  }

  lemma AllVerticesInHeader(l: Layout, threshold: real)
    requires |l.poly.normalizedVertices| > 0
    requires forall i :: 0 <= i < |l.poly.normalizedVertices| ==> l.poly.normalizedVertices[i].y < threshold
    ensures InHeader(l, threshold)
  {
    var vs := l.poly.normalizedVertices;
    SumYBelow(vs, threshold);
    assert SumY(vs) / (|vs| as real) < threshold;
  }
}
