/** The three-column scramble table of the PDF reply: per scramble a numbered label,
    the scramble text and its diagram (or an error message in the diagram's place);
    then column widths from the widest label, the page width and the diagram width. */
module ScrambleTable {
  import opened Wrappers
  import opened Decimal

  /** Size of a diagram in points, as the puzzle's preferred size gives it. */
  datatype Dimension = Dimension(width: int, height: int)

  /** The drawn template of one diagram (a handle: its pixels are not modelled). */
  datatype Image = Image(template: nat)

  /** What drawing one scramble's diagram gave: the image, or the message of the
      exception it threw (Java's `getMessage()`, which may be null). */
  datatype DrawOutcome = Drawn(image: Image) | DrawFailed(message: Option<string>)

  /** The color-scheme parameter of the request, handed to the drawing routine. */
  type ColorScheme = Option<string>

  /** A table cell: the row label, the scramble (set in Courier and broken only at
      spaces), the diagram image on a gray background, or a plain text cell. */
  datatype Cell =
    | IndexCell(caption: string)
    | ScrambleCell(scramble: string)
    | DiagramCell(image: Image)
    | ErrorCell(text: string)

  const COLUMNS: nat := 3
  const ERROR_PREFIX := "Error drawing scramble: "

  /** The source doubles the widest label width for the first column. */
  const INDEX_WIDTH_FACTOR: real := 2.0

  /** Label of the row with 0-based index `i`: `(i+1) + "."`. */
  function Label(i: nat): string {
    NatToString(i + 1) + "."
  }

  /** A label is the row number counted from one, read back from the digits before its
      final period; so no two rows share a label. */
  lemma LabelNumber(i: nat)
    ensures |Label(i)| >= 2 && Label(i)[|Label(i)| - 1] == '.'
    ensures AllDigits(Label(i)[..|Label(i)| - 1])
    ensures ParseDigits(Label(i)[..|Label(i)| - 1]) == i + 1
  {
    assert Label(i)[..|Label(i)| - 1] == NatToString(i + 1);
    ParseNatToString(i + 1);
  }

  lemma LabelsDistinct(i: nat, j: nat)
    requires i != j
    ensures Label(i) != Label(j)
  {
    LabelNumber(i);
    LabelNumber(j);
  }

  /** Java's string concatenation of a possibly null message. */
  function MessageText(message: Option<string>): string {
    match message
    case Some(m) => m
    case None => "null"
  }

  /** The third cell of a row: the image when drawing succeeded, the error text otherwise. */
  function DiagramOrError(outcome: DrawOutcome): (r: Cell)
    ensures r.ErrorCell? <==> outcome.DrawFailed?
    ensures outcome.Drawn? ==> r == DiagramCell(outcome.image)
    ensures outcome.DrawFailed? ==> ERROR_PREFIX <= r.text && r.text[|ERROR_PREFIX|..] == MessageText(outcome.message)
  {
    match outcome
    case Drawn(image) => DiagramCell(image)
    case DrawFailed(message) => ErrorCell(ERROR_PREFIX + MessageText(message))
  }

  /** The three cells of row `i`. */
  function Row(i: nat, scramble: string, outcome: DrawOutcome): seq<Cell> {
    [IndexCell(Label(i)), ScrambleCell(scramble), DiagramOrError(outcome)]
  }

  /** The cells the row loop adds for `scrambles`, drawn at size `dim` with `scheme`. */
  function TableCells(scrambles: seq<string>, draw: (Dimension, string, ColorScheme) -> DrawOutcome,
                      dim: Dimension, scheme: ColorScheme): (r: seq<Cell>)
    ensures |r| == COLUMNS * |scrambles|
    decreases |scrambles|
  {
    if scrambles == [] then []
    else
      var n := |scrambles| - 1;
      TableCells(scrambles[..n], draw, dim, scheme) + Row(n, scrambles[n], draw(dim, scrambles[n], scheme))
  }

  /** One more scramble adds its row at the end. */
  lemma TableCellsStep(scrambles: seq<string>, k: nat, draw: (Dimension, string, ColorScheme) -> DrawOutcome,
                       dim: Dimension, scheme: ColorScheme)
    requires k < |scrambles|
    ensures TableCells(scrambles[..k + 1], draw, dim, scheme)
         == TableCells(scrambles[..k], draw, dim, scheme) + Row(k, scrambles[k], draw(dim, scrambles[k], scheme))
  {
    assert scrambles[..k + 1][..k] == scrambles[..k];
  }

  /** The table holds exactly three cells per scramble, in input order: row `i` is the label
      `(i+1)."`, the scramble, and the diagram or its error text; a failed diagram takes
      the third cell of its own row and leaves every other row as it is. */
  lemma {:induction false} TableRows(scrambles: seq<string>, draw: (Dimension, string, ColorScheme) -> DrawOutcome,
                                     dim: Dimension, scheme: ColorScheme)
    ensures |TableCells(scrambles, draw, dim, scheme)| == COLUMNS * |scrambles|
    ensures forall i :: 0 <= i < |scrambles| ==>
              && TableCells(scrambles, draw, dim, scheme)[COLUMNS * i] == IndexCell(Label(i))
              && TableCells(scrambles, draw, dim, scheme)[COLUMNS * i + 1] == ScrambleCell(scrambles[i])
              && TableCells(scrambles, draw, dim, scheme)[COLUMNS * i + 2] == DiagramOrError(draw(dim, scrambles[i], scheme))
    decreases |scrambles|
  {
    if scrambles != [] {
      var n := |scrambles| - 1;
      TableRows(scrambles[..n], draw, dim, scheme);
      var prefix := TableCells(scrambles[..n], draw, dim, scheme);
      var cells := TableCells(scrambles, draw, dim, scheme);
      forall i | 0 <= i < |scrambles|
        ensures && cells[COLUMNS * i] == IndexCell(Label(i))
                && cells[COLUMNS * i + 1] == ScrambleCell(scrambles[i])
                && cells[COLUMNS * i + 2] == DiagramOrError(draw(dim, scrambles[i], scheme))
      {
        if i < n {
          assert cells[COLUMNS * i] == prefix[COLUMNS * i];
          assert cells[COLUMNS * i + 1] == prefix[COLUMNS * i + 1];
          assert cells[COLUMNS * i + 2] == prefix[COLUMNS * i + 2];
          assert scrambles[..n][i] == scrambles[i];
        }
      }
    }
  }

  /** With a drawing routine that always fails, every third cell is an error text, and
      all rows are still there. */
  lemma AllDrawingsFail(scrambles: seq<string>, draw: (Dimension, string, ColorScheme) -> DrawOutcome,
                        dim: Dimension, scheme: ColorScheme)
    requires forall s :: draw(dim, s, scheme).DrawFailed?
    ensures |TableCells(scrambles, draw, dim, scheme)| == COLUMNS * |scrambles|
    ensures forall i :: 0 <= i < |scrambles| ==>
              && TableCells(scrambles, draw, dim, scheme)[COLUMNS * i + 2].ErrorCell?
              && ERROR_PREFIX <= TableCells(scrambles, draw, dim, scheme)[COLUMNS * i + 2].text
  {
    TableRows(scrambles, draw, dim, scheme);
  }

  /** The scramble texts of a table, read back in order. */
  function ScrambleTexts(cells: seq<Cell>): seq<string>
    decreases |cells|
  {
    if cells == [] then []
    else (if cells[0].ScrambleCell? then [cells[0].scramble] else []) + ScrambleTexts(cells[1..])
  }

  lemma {:induction false} ScrambleTextsAppend(a: seq<Cell>, b: seq<Cell>)
    ensures ScrambleTexts(a + b) == ScrambleTexts(a) + ScrambleTexts(b)
    decreases |a|
  {
    if a == [] {
      assert a + b == b;
    } else {
      assert (a + b)[1..] == a[1..] + b;
      ScrambleTextsAppend(a[1..], b);
    }
  }

  /** Reading the scramble column gives back the scrambles, none lost and none reordered. */
  lemma {:induction false} ScrambleColumnRoundTrip(scrambles: seq<string>,
                                                   draw: (Dimension, string, ColorScheme) -> DrawOutcome,
                                                   dim: Dimension, scheme: ColorScheme)
    ensures ScrambleTexts(TableCells(scrambles, draw, dim, scheme)) == scrambles
    decreases |scrambles|
  {
    if scrambles != [] {
      var n := |scrambles| - 1;
      var row := Row(n, scrambles[n], draw(dim, scrambles[n], scheme));
      ScrambleColumnRoundTrip(scrambles[..n], draw, dim, scheme);
      ScrambleTextsAppend(TableCells(scrambles[..n], draw, dim, scheme), row);
      assert !row[2].ScrambleCell?;
      assert ScrambleTexts(row[2..]) == [] by {
        assert row[2..][1..] == [];
      }
      assert row[1..][1..] == row[2..];
      assert ScrambleTexts(row[1..]) == [scrambles[n]];
      assert ScrambleTexts(row) == [scrambles[n]];
      assert scrambles[..n] + [scrambles[n]] == scrambles;
    }
  }

  function Max(a: real, b: real): real {
    if a >= b then a else b
  }

  /** Widest label of the first `n` rows as the loop tracks it, starting from zero. */
  function MaxLabelWidth(measure: string -> real, n: nat): real
    decreases n
  {
    if n == 0 then 0.0 else Max(MaxLabelWidth(measure, n - 1), measure(Label(n - 1)))
  }

  /** The widest label is never negative, at least every measured label width, and either
      zero or one of them. */
  lemma {:induction false} MaxLabelWidthBounds(measure: string -> real, n: nat)
    ensures MaxLabelWidth(measure, n) >= 0.0
    ensures forall i :: 0 <= i < n ==> measure(Label(i)) <= MaxLabelWidth(measure, n)
    ensures MaxLabelWidth(measure, n) == 0.0 || exists i :: 0 <= i < n && MaxLabelWidth(measure, n) == measure(Label(i))
    decreases n
  {
    if n > 0 {
      MaxLabelWidthBounds(measure, n - 1);
      var m := MaxLabelWidth(measure, n - 1);
      if MaxLabelWidth(measure, n) != 0.0 && MaxLabelWidth(measure, n) != measure(Label(n - 1)) {
        var i :| 0 <= i < n - 1 && m == measure(Label(i));
      }
    }
  }

  /** With no scrambles the widest label is zero; with some, and widths that are never
      negative, it is the width of one of the labels. */
  lemma MaxLabelWidthAttained(measure: string -> real, n: nat)
    requires forall s :: measure(s) >= 0.0
    ensures n == 0 ==> MaxLabelWidth(measure, n) == 0.0
    ensures n > 0 ==> exists i :: 0 <= i < n && MaxLabelWidth(measure, n) == measure(Label(i))
  {
    MaxLabelWidthBounds(measure, n);
    if n > 0 && MaxLabelWidth(measure, n) == 0.0 {
      assert measure(Label(0)) <= 0.0;
      assert measure(Label(0)) >= 0.0;
    }
  }

  /** Column widths: twice the widest label, the rest of the page, the diagram width. */
  function ColumnWidths(pageWidth: real, maxLabelWidth: real, diagramWidth: int): (w: seq<real>)
    ensures |w| == COLUMNS
    ensures w[0] + w[1] + w[2] == pageWidth
    ensures w[0] == INDEX_WIDTH_FACTOR * maxLabelWidth && w[2] == diagramWidth as real
  {
    var index := INDEX_WIDTH_FACTOR * maxLabelWidth;
    [index, pageWidth - index - diagramWidth as real, diagramWidth as real]
  }

  /** Nothing keeps the text column positive: a diagram wider than the page less the
      index column leaves it negative. */
  lemma TextColumnUnguarded(pageWidth: real, maxLabelWidth: real, diagramWidth: int)
    requires maxLabelWidth >= 0.0 && diagramWidth as real > pageWidth
    ensures ColumnWidths(pageWidth, maxLabelWidth, diagramWidth)[1] < 0.0
  {
  }

  /** The split character of the scramble cell: a line may break at a position exactly
      when the character there is a space. */
  predicate IsSplitCharacter(text: string, current: nat)
    requires current < |text|
  {
    text[current] == ' '
  }

  /** Positions of `text` where the scramble cell may break a line. */
  function BreakPoints(text: string): (r: set<nat>)
    ensures forall i: nat :: i in r <==> i < |text| && text[i] == ' '
  {
    set i: nat | i < |text| && IsSplitCharacter(text, i)
  }

  /** A scramble without spaces has no break point, and every space is a place where a
      break may occur. */
  lemma BreaksOnlyBetweenTokens(text: string)
    ensures BreakPoints(text) == {} <==> ' ' !in text
    ensures forall i: nat :: i < |text| && text[i] != ' ' ==> i !in BreakPoints(text)
  {
    if ' ' in text {
      var i :| 0 <= i < |text| && text[i] == ' ';
      assert i in BreakPoints(text);
    }
  }

  /** A table of a fixed number of columns that cells are appended to row by row, and
      whose column widths are set once at the end. */
  class PdfTable {
    const numColumns: nat
    var cells: seq<Cell>
    var totalWidths: seq<real>

    constructor (numColumns: nat)
      requires numColumns > 0
      ensures this.numColumns == numColumns && cells == [] && totalWidths == []
    {
      this.numColumns := numColumns;
      cells := [];
      totalWidths := [];
    }

    method AddCell(cell: Cell)
      modifies this
      ensures cells == old(cells) + [cell]
      ensures totalWidths == old(totalWidths)
    {
      cells := cells + [cell];
    }

    method SetTotalWidth(widths: seq<real>)
      requires |widths| == numColumns
      modifies this
      ensures totalWidths == widths
      ensures cells == old(cells)
    {
      totalWidths := widths;
    }
  }
}
