# Scramble request handler — a verified model

This project models the logic inside the scramble request handler of the TNoodle
scramble server (`ScrambleHandler.java`): how a request path such as
`/scramble/333.Round 1.pdf` is read into puzzle, title and extension; how the
extension picks the reply format; how the `count` and `offset` parameters are
capped; the plain-text listing of scrambles; the PDF scramble table (one row per
scramble with its label, text and diagram, and column widths computed after the last
row); the header line written on each page; the "break only at spaces" rule of the
scramble cell; and the puzzle-name listing built when the handler is created.

Modules, one per part of the handler:

- `Wrappers` — `Option` (Java's null) and `Result`.
- `Decimal` — decimal rendering of a non-negative `int` as Java string concatenation
  produces it, and its inverse.
- `JavaSplit` — `String.split` on a single separator character with Java's rules:
  trailing empty parts are dropped, leading and middle ones are kept, and a string
  without the separator comes back whole (so `""` gives one empty part and `"..."`
  gives none).
- `RequestPath` — segment parsing, extension dispatch, the `MAX_COUNT` cap.
- `TextListing` — the `txt` reply, built by a loop over a string builder.
- `ScrambleTable` — cells, the table class that cells are appended to, the widest
  label, the column widths and the split-character predicate.
- `HeaderFooter` — the header string, the page line, and the page-event class.
- `Puzzles` — the scrambler as the handler sees it: its names and its collaborators.
- `PdfRendering` — the `createPdf` row loop and the document it produces.
- `Handler` — the handler class: the constructor's name array and `wrappedHandle`.

Collaborators whose code is not part of this model are parameters: scramble
generation, the preferred diagram size and diagram drawing are function fields of a
`Scrambler`; the width of a label in the PDF font is a function `measure` handed to
the handler; integer parsing of the query is done before the model sees the query (a
parameter that is missing or does not parse is absent). Widths are `real`: the source's
`float` arithmetic here is only sums, a doubling and maxima.

The code does not reject or clamp diagram sizes wider than the page (the text column
can become zero or negative, see `ScrambleTable.TextColumnUnguarded`), has no lower
bound on `count` or `offset`, and does not require at least one scramble.

The handler is mounted under its own name, so the path it receives always has that name
as its first segment; `Handler.Route` and `WrappedHandle` therefore take a path of at
least one segment, and the segment after it (if any) names the puzzle.

## Model

| member | source | states |
|---|---|---|
| `Decimal.NatToString` | server/src/net/gnehzr/tnoodle/server/ScrambleHandler.java:242 | the decimal text of an index is non-empty, digits only, with no leading zero |
| `Decimal.ParseNatToString` | server/src/net/gnehzr/tnoodle/server/ScrambleHandler.java:242 | reading the decimal text of `n` back gives `n` |
| `Decimal.NatToStringInjective` | server/src/net/gnehzr/tnoodle/server/ScrambleHandler.java:133 | distinct indices get distinct decimal texts |
| `JavaSplit.JoinPieces` | server/src/net/gnehzr/tnoodle/server/ScrambleHandler.java:201 | cutting a segment at every period and joining the pieces with periods restores it |
| `JavaSplit.PiecesCount` | server/src/net/gnehzr/tnoodle/server/ScrambleHandler.java:201 | there is one piece more than there are periods |
| `JavaSplit.Split` | server/src/net/gnehzr/tnoodle/server/ScrambleHandler.java:201 | no part of the split holds a period; the parts are the pieces with only empty pieces dropped, and only at the end |
| `JavaSplit.SplitEmptyIffAllSeparators` | server/src/net/gnehzr/tnoodle/server/ScrambleHandler.java:201 | the split has no part exactly when the segment is non-empty and all periods |
| `RequestPath.ParseSegment` | server/src/net/gnehzr/tnoodle/server/ScrambleHandler.java:201-221 | a segment that parses gives a well-formed target (period-free parts, a title only with an extension, a non-empty extension); a refused one carries "Invalid number of periods: " and the segment |
| `RequestPath.ParseSegmentErrors` | server/src/net/gnehzr/tnoodle/server/ScrambleHandler.java:201-221 | a segment is refused exactly when it splits into other than 1 to 3 parts (periods only included), with the message "Invalid number of periods: " followed by the segment |
| `RequestPath.ParseRender` | server/src/net/gnehzr/tnoodle/server/ScrambleHandler.java:202-217 | 1, 2 and 3 parts map to (puzzle, null, null), (puzzle, null, ext) and (puzzle, title, ext): every such target is read back from its segment |
| `RequestPath.ParseSound` | server/src/net/gnehzr/tnoodle/server/ScrambleHandler.java:202-217 | whatever a segment parses to has period-free parts and a non-empty extension, and the segment is its rendering plus dropped trailing periods |
| `RequestPath.EmptyTitleExample` | server/src/net/gnehzr/tnoodle/server/ScrambleHandler.java:213-216 | `333..pdf` names puzzle `333`, the empty title and extension `pdf` |
| `RequestPath.TrailingPeriodExample` | server/src/net/gnehzr/tnoodle/server/ScrambleHandler.java:203-206 | `333.` names puzzle `333` with no title and no extension |
| `RequestPath.FourPartsExample` | server/src/net/gnehzr/tnoodle/server/ScrambleHandler.java:218-220 | `a.b.c.d` is refused with the periods message |
| `RequestPath.SelectFormat` | server/src/net/gnehzr/tnoodle/server/ScrambleHandler.java:237-254 | null or "txt" gives text, "json" JSON, "pdf" PDF, each if and only if; any other extension gives "Invalid extension: " and the extension |
| `RequestPath.CapAtMaxCount` | server/src/net/gnehzr/tnoodle/server/ScrambleHandler.java:229-232 | the value is never above 100, is the request (or default) whenever that is at most 100, and is otherwise 100 |
| `RequestPath.EffectiveCount` | server/src/net/gnehzr/tnoodle/server/ScrambleHandler.java:229 | count is 1 when absent, capped at 100, and kept as requested up to 100, zero and negatives included |
| `RequestPath.EffectiveOffset` | server/src/net/gnehzr/tnoodle/server/ScrambleHandler.java:232 | offset is 0 when absent, capped at 100, kept as requested up to 100 |
| `TextListing.ReplaceNewlines` | server/src/net/gnehzr/tnoodle/server/ScrambleHandler.java:241-242 | the flattened scramble has the same length, no newline, a space where each newline was and every other character unchanged |
| `TextListing.ListingFromAppend` | server/src/net/gnehzr/tnoodle/server/ScrambleHandler.java:239-243 | one more scramble appends exactly its numbered line to the listing |
| `TextListing.BuildListing` | server/src/net/gnehzr/tnoodle/server/ScrambleHandler.java:238-244 | the string-builder loop produces the listing of all scrambles |
| `TextListing.LinesOfCons` | server/src/net/gnehzr/tnoodle/server/ScrambleHandler.java:242 | a newline-free line followed by a newline is read back as that line |
| `TextListing.ListingFromLines` | server/src/net/gnehzr/tnoodle/server/ScrambleHandler.java:239-243 | read back line by line, `ListingFrom` gives the expected lines |
| `TextListing.ExpectedLineAt` | server/src/net/gnehzr/tnoodle/server/ScrambleHandler.java:242 | expected line i (`LineText` and "\r") is the number first+i, ". ", the flattened scramble i and "\r" |
| `TextListing.ListingLines` | server/src/net/gnehzr/tnoodle/server/ScrambleHandler.java:239-243 | `Listing` has exactly one CRLF-terminated line per scramble, in order; line i is `i`, ". " and scramble i with newlines made spaces |
| `ScrambleTable.TableCells` | server/src/net/gnehzr/tnoodle/server/ScrambleHandler.java:131-166 | the cells the loop adds number exactly three per scramble |
| `ScrambleTable.LabelNumber` | server/src/net/gnehzr/tnoodle/server/ScrambleHandler.java:133 | the label `Label(i)` is digits and a final period, and the digits read back as i+1 |
| `ScrambleTable.LabelsDistinct` | server/src/net/gnehzr/tnoodle/server/ScrambleHandler.java:133 | no two rows get the same label |
| `ScrambleTable.DiagramOrError` | server/src/net/gnehzr/tnoodle/server/ScrambleHandler.java:150-165 | the third cell is an error text exactly when drawing failed; a drawn diagram gives its image; the error text is "Error drawing scramble: " followed by the message (`MessageText`: "null" for a null message) |
| `ScrambleTable.TableCellsStep` | server/src/net/gnehzr/tnoodle/server/ScrambleHandler.java:131-166 | one more scramble appends its `Row` (label, text and diagram cells) at the end |
| `ScrambleTable.TableRows` | server/src/net/gnehzr/tnoodle/server/ScrambleHandler.java:131-166 | the table has exactly 3·N cells; row i is the label `(i+1).`, scramble i, and its image or "Error drawing scramble: " and the message; a failed diagram fills only its own cell |
| `ScrambleTable.AllDrawingsFail` | server/src/net/gnehzr/tnoodle/server/ScrambleHandler.java:162-165 | when every drawing fails all N rows are still there and each diagram cell is an error text with the fixed prefix |
| `ScrambleTable.ScrambleColumnRoundTrip` | server/src/net/gnehzr/tnoodle/server/ScrambleHandler.java:139-149 | reading the scramble cells of the table gives back the scrambles, in order |
| `ScrambleTable.MaxLabelWidthBounds` | server/src/net/gnehzr/tnoodle/server/ScrambleHandler.java:130-134 | `MaxLabelWidth`, the tracked maximum, is at least 0, at least every label width, and either 0 or one of them |
| `ScrambleTable.MaxLabelWidthAttained` | server/src/net/gnehzr/tnoodle/server/ScrambleHandler.java:130-134 | with no scrambles it is 0; with some (and non-negative widths) it is the width of one of the labels |
| `ScrambleTable.ColumnWidths` | server/src/net/gnehzr/tnoodle/server/ScrambleHandler.java:167-168 | three widths that sum exactly to the page width: twice the widest label, the rest, the diagram width |
| `ScrambleTable.TextColumnUnguarded` | server/src/net/gnehzr/tnoodle/server/ScrambleHandler.java:168 | a diagram wider than the page leaves the text column negative: nothing guards against it |
| `ScrambleTable.BreakPoints` | server/src/net/gnehzr/tnoodle/server/ScrambleHandler.java:88-95 | a position is a break point exactly when its character is a space |
| `ScrambleTable.BreaksOnlyBetweenTokens` | server/src/net/gnehzr/tnoodle/server/ScrambleHandler.java:88-95 | a scramble without spaces has no break point, and no non-space character is one |
| `ScrambleTable.PdfTable.constructor` | server/src/net/gnehzr/tnoodle/server/ScrambleHandler.java:128 | a new table of three columns holds no cells and no widths |
| `ScrambleTable.PdfTable.AddCell` | server/src/net/gnehzr/tnoodle/server/ScrambleHandler.java:137 | appends the cell and changes nothing else |
| `ScrambleTable.PdfTable.SetTotalWidth` | server/src/net/gnehzr/tnoodle/server/ScrambleHandler.java:168 | sets the widths, one per column, and leaves the cells |
| `HeaderFooter.Header` | server/src/net/gnehzr/tnoodle/server/ScrambleHandler.java:185 | the header is the puzzle name when there is no title, else the name, a space and the title |
| `HeaderFooter.PageLineNumber` | server/src/net/gnehzr/tnoodle/server/ScrambleHandler.java:191 | `PageLine` is the header, " page " and the page number, which is read back from it |
| `HeaderFooter.PageLinesDistinct` | server/src/net/gnehzr/tnoodle/server/ScrambleHandler.java:191 | two pages never carry the same line |
| `HeaderFooter.HeaderFooter.constructor` | server/src/net/gnehzr/tnoodle/server/ScrambleHandler.java:184-186 | the page-event object holds the header of the puzzle name and title |
| `HeaderFooter.HeaderFooter.OnEndPage` | server/src/net/gnehzr/tnoodle/server/ScrambleHandler.java:187-193 | the text is the header then " page n", centred between the art box's sides, at its top, unrotated |
| `HeaderFooter.PageLineOnLetter` | server/src/net/gnehzr/tnoodle/server/ScrambleHandler.java:116 | with the document's art box the line is centred on the page at 738 points |
| `PdfRendering.TruncateToInt` | server/src/net/gnehzr/tnoodle/server/ScrambleHandler.java:101 | the `(int)` cast drops the fraction toward zero |
| `PdfRendering.DefaultHeightIs158` | server/src/net/gnehzr/tnoodle/server/ScrambleHandler.java:101 | the default height is 158, a fifth of the Letter page height truncated |
| `PdfRendering.DiagramWidth` | server/src/net/gnehzr/tnoodle/server/ScrambleHandler.java:98-99 | an explicit width is kept; 200 only when absent |
| `PdfRendering.DiagramHeight` | server/src/net/gnehzr/tnoodle/server/ScrambleHandler.java:100-101 | an explicit height is kept; 158 only when absent |
| `PdfRendering.AddRows` | server/src/net/gnehzr/tnoodle/server/ScrambleHandler.java:130-166 | after the loop the table holds exactly the label, scramble and diagram-or-error cells of every scramble in order, no widths yet, and the tracked maximum is the widest label |
| `PdfRendering.CreatePdf` | server/src/net/gnehzr/tnoodle/server/ScrambleHandler.java:97-173 | the document is a rendering (`IsRendering`): it carries the title, the header, the preferred diagram size, exactly the table cells of the scrambles in order and the column widths from the widest label; 3·N cells; widths summing to the page width with the diagram column equal to the diagram width |
| `Handler.StringLessIrreflexive` | server/src/net/gnehzr/tnoodle/server/ScrambleHandler.java:70 | `StringLess`, the order of the sorted map's keys, is irreflexive: no key sorts before itself |
| `Handler.Find` | server/src/net/gnehzr/tnoodle/server/ScrambleHandler.java:222-226 | lookup finds the first entry with the key, and finds none exactly when no entry has it |
| `Handler.FindInSortedMap` | server/src/net/gnehzr/tnoodle/server/ScrambleHandler.java:222 | in a sorted map lookup by an entry's key finds that entry |
| `Handler.GenerationFor` | server/src/net/gnehzr/tnoodle/server/ScrambleHandler.java:228-235 | seeded generation exactly when a seed is given, with the capped count and offset; otherwise unseeded with the capped count |
| `Handler.GenerateForQuery` | server/src/net/gnehzr/tnoodle/server/ScrambleHandler.java:228-235 | `Generate` with the query's generation calls the seeded generator with the seed, capped count and capped offset when a seed is given, else the unseeded one with the capped count |
| `Handler.NameRowsAgreeWithLookup` | server/src/net/gnehzr/tnoodle/server/ScrambleHandler.java:76-84 | in a sorted map, the `NameRows` listing row at the position where lookup finds a puzzle holds that puzzle's short and long names |
| `Handler.Route` | server/src/net/gnehzr/tnoodle/server/ScrambleHandler.java:197-235 | a bare path lists puzzles; a bad segment or unknown puzzle is refused with its message, if and only if; otherwise the named puzzle serves, with the generation and format of the request |
| `Handler.ScrambleHandler.constructor` | server/src/net/gnehzr/tnoodle/server/ScrambleHandler.java:72-86 | the name listing has one row [short name, long name] per puzzle, in sorted-map order |
| `Handler.ScrambleHandler.WrappedHandle` | server/src/net/gnehzr/tnoodle/server/ScrambleHandler.java:196-256 | the reply is the puzzle listing, the refusal message, the text listing, the JSON list, the rendered PDF shown inline, or the extension error, as the decision says |

## Left out

- PDF library internals (document, writer, templates, images, `ColumnText` drawing,
  metadata other than the title, `open`/`close`) are not modelled: the document is the
  value that records what is handed to the library.
- Font loading and metrics: label widths come from the `measure` parameter; the Courier
  font of the scramble cell, and what happens when it cannot be loaded, are not modelled.
- Diagram drawing, preferred size, color-scheme parsing and scramble generation are
  opaque collaborators; drawing is a function of size, scramble and scheme, so two
  identical scrambles in one request get the same outcome.
- Unseeded generation is random in the source; the model takes it as a given function.
- JSON serialization (the name listing and the scramble list) and the HTTP replies
  (`sendText`, `sendJSON`, `sendBytes`, response headers other than the inline
  disposition) are not modelled; a reply records what would be serialized and sent.
- Integer parsing of query parameters (`toInt`) lives outside this file: a parameter is
  either absent or an `int`.
- The `DocumentException` path (stack trace, `null` result, closing the writer in
  `finally`) is not modelled; `CreatePdf` always produces a document.
- `float` rounding is not modelled: widths are exact reals.
- `Handler.StringLess`: compares characters as Dafny characters, while Java compares
  UTF-16 code units; they differ only for characters outside the Basic Multilingual Plane.
- `HeaderFooter.HeaderFooter.OnEndPage`: the page number is the one the writer supplies;
  page breaking itself belongs to the PDF library and is not modelled.
