/** The PDF reply: a Letter-size document whose body is the scramble table and whose
    pages carry the header line. */
module PdfRendering {
  import opened Wrappers
  import opened ScrambleTable
  import opened HeaderFooter
  import opened Puzzles

  /** Diagram width when the request gives none. */
  const DEFAULT_WIDTH: int := 200

  /** Java's `(int)` cast of a finite value: the fraction is dropped, toward zero. */
  function TruncateToInt(x: real): (r: int)
    ensures x >= 0.0 ==> r as real <= x < r as real + 1.0
    ensures x < 0.0 ==> r as real - 1.0 < x <= r as real
  {
    if x >= 0.0 then x.Floor else -((-x).Floor)
  }

  /** Diagram height when the request gives none: a fifth of the page height, for five
      scrambles per page. */
  function DefaultHeight(): int {
    TruncateToInt(PAGE_HEIGHT / 5.0)
  }

  lemma DefaultHeightIs158()
    ensures DefaultHeight() == 158
  {
    var x := PAGE_HEIGHT / 5.0;
    assert x == 158.4;
  }

  /** The requested width, or the default only when none is given. */
  function DiagramWidth(width: Option<int>): (w: int)
    ensures width.Some? ==> w == width.value
    ensures width.None? ==> w == DEFAULT_WIDTH
  {
    width.GetOr(DEFAULT_WIDTH)
  }

  /** The requested height, or the default only when none is given. */
  function DiagramHeight(height: Option<int>): (h: int)
    ensures height.Some? ==> h == height.value
    ensures height.None? ==> h == 158
  {
    DefaultHeightIs158();
    height.GetOr(DefaultHeight())
  }

  /** What the rendered document holds: its metadata title, the header its pages carry,
      the art box of that header, the diagram size, and the table's cells and widths. */
  datatype PdfDocument = PdfDocument(
    title: Option<string>,
    header: string,
    artBox: Rectangle,
    diagramSize: Dimension,
    cells: seq<Cell>,
    columnWidths: seq<real>)

  /** `doc` is the document rendered for `scrambles` of `scrambler`, with label widths
      taken from `measure`. */
  predicate IsRendering(doc: PdfDocument, scrambler: Scrambler, scrambles: seq<string>, title: Option<string>,
                        width: Option<int>, height: Option<int>, scheme: ColorScheme, measure: string -> real)
  {
    var dim := scrambler.preferredSize(DiagramWidth(width), DiagramHeight(height));
    && doc.title == title
    && doc.header == Header(scrambler.longName, title)
    && doc.artBox == ART_BOX
    && doc.diagramSize == dim
    && doc.cells == TableCells(scrambles, scrambler.draw, dim, scheme)
    && doc.columnWidths == ColumnWidths(PAGE_WIDTH, MaxLabelWidth(measure, |scrambles|), dim.width)
  }

  /** The loop of the PDF branch: adds the three cells of every scramble to `table` in
      order and returns the widest label measured on the way. */
  method AddRows(table: PdfTable, scrambles: seq<string>, draw: (Dimension, string, ColorScheme) -> DrawOutcome,
                 dim: Dimension, scheme: ColorScheme, measure: string -> real)
    returns (maxWidth: real)
    requires table.cells == [] && table.totalWidths == []
    modifies table
    ensures table.cells == TableCells(scrambles, draw, dim, scheme)
    ensures table.totalWidths == []
    ensures maxWidth == MaxLabelWidth(measure, |scrambles|)
  {
    maxWidth := 0.0;
    var i := 0;
    while i < |scrambles|
      invariant 0 <= i <= |scrambles|
      invariant table.totalWidths == []
      invariant table.cells == TableCells(scrambles[..i], draw, dim, scheme)
      invariant maxWidth == MaxLabelWidth(measure, i)
    {
      var scramble := scrambles[i];
      var caption := Label(i);
      maxWidth := Max(maxWidth, measure(caption));
      table.AddCell(IndexCell(caption));
      table.AddCell(ScrambleCell(scramble));
      var diagram: Cell;
      match draw(dim, scramble, scheme) {
        case Drawn(image) =>
          diagram := DiagramCell(image);
        case DrawFailed(message) =>
          diagram := ErrorCell(ERROR_PREFIX + MessageText(message));
      }
      table.AddCell(diagram);
      assert [IndexCell(caption), ScrambleCell(scramble), diagram] == Row(i, scramble, draw(dim, scramble, scheme));
      TableCellsStep(scrambles, i, draw, dim, scheme);
      i := i + 1;
    }
    assert scrambles[..i] == scrambles;
  }

  /** Builds the table row by row, tracking the widest label, then sets the column
      widths once all rows are in. */
  method CreatePdf(scrambler: Scrambler, scrambles: seq<string>, title: Option<string>,
                   width: Option<int>, height: Option<int>, scheme: ColorScheme, measure: string -> real)
    returns (doc: PdfDocument)
    ensures IsRendering(doc, scrambler, scrambles, title, width, height, scheme, measure)
    ensures |doc.cells| == COLUMNS * |scrambles|
    ensures |doc.columnWidths| == COLUMNS
    ensures doc.columnWidths[0] + doc.columnWidths[1] + doc.columnWidths[2] == PAGE_WIDTH
    ensures doc.columnWidths[2] == doc.diagramSize.width as real
  {
    var w := DiagramWidth(width);
    var h := DiagramHeight(height);
    var decorator := new HeaderFooter(scrambler.longName, title);
    var dim := scrambler.preferredSize(w, h);
    var table := new PdfTable(COLUMNS);
    var maxWidth := AddRows(table, scrambles, scrambler.draw, dim, scheme, measure);
    ghost var widest := maxWidth;

    maxWidth := maxWidth * INDEX_WIDTH_FACTOR;
    table.SetTotalWidth([maxWidth, PAGE_WIDTH - maxWidth - dim.width as real, dim.width as real]);
    doc := PdfDocument(title, decorator.header, ART_BOX, dim, table.cells, table.totalWidths);

    assert doc.columnWidths == ColumnWidths(PAGE_WIDTH, widest, dim.width);
  }
}
