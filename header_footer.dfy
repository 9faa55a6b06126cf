/** The page decorator: once per finished page it writes one line, the puzzle's long
    name, the title if there is one, and the page number, centred at the top of the
    page's art box. */
module HeaderFooter {
  import opened Wrappers
  import opened Decimal

  /** A rectangle given by its lower-left and upper-right corners, in points. */
  datatype Rectangle = Rectangle(left: real, bottom: real, right: real, top: real)

  /** Text placed on a page, centred horizontally on `x`, with its baseline at `y`. */
  datatype ShownText = ShownText(text: string, x: real, y: real, rotation: real)

  /** US Letter, 612 by 792 points. */
  const PAGE_WIDTH: real := 612.0
  const PAGE_HEIGHT: real := 792.0

  /** The art box the document reserves for the header line. */
  const ART_BOX := Rectangle(36.0, 54.0, PAGE_WIDTH - 36.0, PAGE_HEIGHT - 54.0)

  const PAGE_WORD := " page "

  /** The header: the puzzle name, followed by a space and the title when there is one. */
  function Header(puzzle: string, title: Option<string>): (h: string)
    ensures puzzle <= h
    ensures title.None? ==> h == puzzle
    ensures title.Some? ==> h[|puzzle|..] == " " + title.value
  {
    puzzle + (if title.None? then "" else " " + title.value)
  }

  /** The line shown on page `page`. */
  function PageLine(header: string, page: nat): string {
    header + PAGE_WORD + NatToString(page)
  }

  /** The page number is read back from the page line, so no two pages share a line. */
  lemma PageLineNumber(header: string, page: nat)
    ensures PageLine(header, page)[..|header| + |PAGE_WORD|] == header + PAGE_WORD
    ensures AllDigits(PageLine(header, page)[|header| + |PAGE_WORD|..])
    ensures ParseDigits(PageLine(header, page)[|header| + |PAGE_WORD|..]) == page
  {
    assert PageLine(header, page)[|header| + |PAGE_WORD|..] == NatToString(page);
    ParseNatToString(page);
  }

  lemma PageLinesDistinct(header: string, m: nat, n: nat)
    requires m != n
    ensures PageLine(header, m) != PageLine(header, n)
  {
    PageLineNumber(header, m);
    PageLineNumber(header, n);
  }

  /** The page-event listener; it holds the header, fixed when it is created. */
  class HeaderFooter {
    const header: string

    constructor (puzzle: string, title: Option<string>)
      ensures header == Header(puzzle, title)
    {
      header := Header(puzzle, title);
    }

    /** The text written at the end of page `page` in a document whose art box is `artBox`. */
    function OnEndPage(artBox: Rectangle, page: nat): (t: ShownText)
      ensures header <= t.text
      ensures t.text[|header|..] == PAGE_WORD + NatToString(page)
      ensures artBox.left <= artBox.right ==> artBox.left <= t.x <= artBox.right
      ensures t.x - artBox.left == artBox.right - t.x
      ensures t.y == artBox.top && t.rotation == 0.0
    {
      ShownText(PageLine(header, page), (artBox.left + artBox.right) / 2.0, artBox.top, 0.0)
    }
  }

  /** On the document's art box the line is centred on the page, 54 points below its top. */
  lemma PageLineOnLetter(h: HeaderFooter, page: nat)
    ensures h.OnEndPage(ART_BOX, page).x == PAGE_WIDTH / 2.0
    ensures h.OnEndPage(ART_BOX, page).y == PAGE_HEIGHT - 54.0
  {
  }
}
