/** The plain-text reply: one CRLF-terminated line per scramble, numbered from zero,
    with every newline inside a scramble turned into a space. */
module TextListing {
  import opened Decimal

  /** `scramble.replaceAll("\n", " ")`. */
  function ReplaceNewlines(s: string): (r: string)
    ensures |r| == |s|
    ensures forall i :: 0 <= i < |s| ==> r[i] == (if s[i] == '\n' then ' ' else s[i])
    ensures '\n' !in r
    decreases |s|
  {
    if s == [] then [] else [if s[0] == '\n' then ' ' else s[0]] + ReplaceNewlines(s[1..])
  }

  /** The text of line `i` without its terminator: index, ". ", flattened scramble. */
  function LineText(i: nat, scramble: string): string {
    NatToString(i) + ". " + ReplaceNewlines(scramble)
  }

  /** The listing of `scrambles` when the first of them is numbered `first`. */
  function ListingFrom(scrambles: seq<string>, first: nat): string
    decreases |scrambles|
  {
    if scrambles == [] then ""
    else LineText(first, scrambles[0]) + "\r\n" + ListingFrom(scrambles[1..], first + 1)
  }

  function Listing(scrambles: seq<string>): string {
    ListingFrom(scrambles, 0)
  }

  /** Appending a scramble appends its line. */
  lemma {:induction false} ListingFromAppend(scrambles: seq<string>, s: string, first: nat)
    ensures ListingFrom(scrambles + [s], first)
         == ListingFrom(scrambles, first) + LineText(first + |scrambles|, s) + "\r\n"
    decreases |scrambles|
  {
    if scrambles == [] {
      assert ListingFrom([s], first) == LineText(first, s) + "\r\n" + ListingFrom([], first + 1);
    } else {
      assert (scrambles + [s])[1..] == scrambles[1..] + [s];
      ListingFromAppend(scrambles[1..], s, first + 1);
    }
  }

  /** The loop of the handler's text branch, appending to a string builder. */
  method BuildListing(scrambles: seq<string>) returns (text: string)
    ensures text == Listing(scrambles)
  {
    text := "";
    var i := 0;
    while i < |scrambles|
      invariant 0 <= i <= |scrambles|
      invariant text == ListingFrom(scrambles[..i], 0)
    {
      ListingFromAppend(scrambles[..i], scrambles[i], 0);
      assert scrambles[..i + 1] == scrambles[..i] + [scrambles[i]];
      text := text + (LineText(i, scrambles[i]) + "\r\n");
      i := i + 1;
    }
    assert scrambles[..i] == scrambles;
  }

  /** Index of the first occurrence of `c` in `s`. */
  function IndexOf(s: string, c: char): (k: nat)
    requires c in s
    ensures k < |s| && s[k] == c && c !in s[..k]
    decreases |s|
  {
    if s[0] == c then 0 else 1 + IndexOf(s[1..], c)
  }

  /** Reads text back as lines, each ended by '\n' (the '\n' itself is not kept);
      a last piece without a terminator is a line too. */
  function LinesOf(text: string): seq<string>
    decreases |text|
  {
    if '\n' !in text then (if text == "" then [] else [text])
    else var k := IndexOf(text, '\n'); [text[..k]] + LinesOf(text[k + 1..])
  }

  lemma LinesOfCons(line: string, rest: string)
    requires '\n' !in line
    ensures LinesOf(line + "\n" + rest) == [line] + LinesOf(rest)
  {
    var text := line + "\n" + rest;
    assert text[|line|] == '\n';
    assert text[..|line|] == line;
    var k := IndexOf(text, '\n');
    assert k <= |line| by {
      assert forall j :: |line| < j <= |text| ==> text[..j][|line|] == '\n';
    }
    assert k >= |line| by {
      assert forall j :: 0 <= j < |line| ==> text[j] == line[j];
    }
    assert text[..k] == line;
    assert text[k + 1..] == rest;
  }

  /** A line's text and the '\r' of its terminator hold no '\n'. */
  lemma LineHasOneTerminator(i: nat, scramble: string)
    ensures '\n' !in LineText(i, scramble) + "\r"
  {
    var n := NatToString(i);
    assert forall j :: 0 <= j < |n| ==> IsDigit(n[j]);
  }

  /** The lines the listing is meant to hold: for each scramble, its number counted from
      `first`, ". ", the flattened scramble, and the '\r' of the CRLF terminator. */
  function ExpectedLines(scrambles: seq<string>, first: nat): (r: seq<string>)
    ensures |r| == |scrambles|
    decreases |scrambles|
  {
    if scrambles == [] then []
    else [LineText(first, scrambles[0]) + "\r"] + ExpectedLines(scrambles[1..], first + 1)
  }

  lemma {:induction false} ExpectedLineAt(scrambles: seq<string>, first: nat, i: nat)
    requires i < |scrambles|
    ensures ExpectedLines(scrambles, first)[i] == LineText(first + i, scrambles[i]) + "\r"
    decreases i
  {
    if i > 0 {
      ExpectedLineAt(scrambles[1..], first + 1, i - 1);
    }
  }

  /** Read back as lines, the listing gives exactly the expected lines. */
  lemma {:induction false} ListingFromLines(scrambles: seq<string>, first: nat)
    ensures LinesOf(ListingFrom(scrambles, first)) == ExpectedLines(scrambles, first)
    decreases |scrambles|
  {
    if scrambles != [] {
      var line := LineText(first, scrambles[0]) + "\r";
      var rest := ListingFrom(scrambles[1..], first + 1);
      ListingFromLines(scrambles[1..], first + 1);
      LineHasOneTerminator(first, scrambles[0]);
      assert ListingFrom(scrambles, first) == line + "\n" + rest by {
        assert ListingFrom(scrambles, first) == LineText(first, scrambles[0]) + "\r\n" + rest;
      }
      LinesOfCons(line, rest);
    }
  }

  /** The text reply, read back line by line. */
  lemma ListingLines(scrambles: seq<string>)
    ensures |LinesOf(Listing(scrambles))| == |scrambles|
    ensures forall i :: 0 <= i < |scrambles| ==>
              LinesOf(Listing(scrambles))[i] == NatToString(i) + ". " + ReplaceNewlines(scrambles[i]) + "\r"
  {
    ListingFromLines(scrambles, 0);
    forall i | 0 <= i < |scrambles|
      ensures LinesOf(Listing(scrambles))[i] == NatToString(i) + ". " + ReplaceNewlines(scrambles[i]) + "\r"
    {
      ExpectedLineAt(scrambles, 0, i);
    }
  }
}
