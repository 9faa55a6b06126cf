/** The scramble request handler: `/scramble` lists the puzzles, and
    `/scramble/<puzzle>[.<title>].<ext>` replies with scrambles of that puzzle as text,
    as JSON or as a PDF document. */
module Handler {
  import opened Wrappers
  import opened RequestPath
  import opened TextListing
  import opened ScrambleTable
  import opened PdfRendering
  import opened Puzzles

  const SCRAMBLER_ERROR := "Invalid scrambler: "
  const INLINE := "inline"

  /** The query parameters the handler reads; the numeric ones as the integer parsing
      gives them (absent when missing). */
  datatype Query = Query(
    callback: Option<string>,
    seed: Option<string>,
    count: Option<int>,
    offset: Option<int>,
    width: Option<int>,
    height: Option<int>,
    scheme: Option<string>)

  /** Which generator is asked for scrambles, and with what arguments. */
  datatype Generation = Unseeded(count: int) | Seeded(seed: string, count: int, offset: int)

  /** The handler's decision, before any reply is built. `Serve` asks the puzzle's
      generator for scrambles; its format is an error when the extension is unknown,
      which is reported only after the scrambles were generated. */
  datatype Decision =
    | ListPuzzles
    | Refuse(message: string)
    | Serve(target: Target, entry: nat, generation: Generation, format: Result<Format, string>)

  /** The value handed to the JSON serializer. */
  datatype JsonValue = StringTable(rows: seq<seq<string>>) | StringList(items: seq<string>)

  datatype Reply =
    | JsonReply(body: JsonValue, callback: Option<string>)
    | TextReply(text: string)
    | PdfReply(doc: PdfDocument, disposition: string)

  /** Java's `String.compareTo` order: lexicographic by character, a proper prefix first. */
  predicate StringLess(a: string, b: string)
    decreases |a|
  {
    if a == [] then b != []
    else if b == [] then false
    else if a[0] != b[0] then a[0] < b[0]
    else StringLess(a[1..], b[1..])
  }

  lemma {:induction false} StringLessIrreflexive(a: string)
    ensures !StringLess(a, a)
    decreases |a|
  {
    if a != [] {
      StringLessIrreflexive(a[1..]);
    }
  }

  /** The entries of a sorted map in iteration order: keys strictly ascending. */
  ghost predicate KeysAscending(entries: seq<(string, Scrambler)>) {
    forall i, j :: 0 <= i < j < |entries| ==> StringLess(entries[i].0, entries[j].0)
  }

  /** `scramblers.get(key)`, as the position of the first entry with that key. */
  function Find(entries: seq<(string, Scrambler)>, key: string): (r: Option<nat>)
    ensures r.Some? ==> r.value < |entries| && entries[r.value].0 == key
    ensures r.Some? ==> forall i :: 0 <= i < r.value ==> entries[i].0 != key
    ensures r.None? <==> forall i :: 0 <= i < |entries| ==> entries[i].0 != key
    decreases |entries|
  {
    if entries == [] then None
    else if entries[0].0 == key then Some(0)
    else match Find(entries[1..], key)
      case None => None
      case Some(j) => Some(j + 1)
  }

  /** In a sorted map a key sits in one entry only, and lookup finds that entry. */
  lemma FindInSortedMap(entries: seq<(string, Scrambler)>, i: nat)
    requires KeysAscending(entries) && i < |entries|
    ensures Find(entries, entries[i].0) == Some(i)
  {
    var r := Find(entries, entries[i].0);
    var j := r.value;
    if j < i {
      assert StringLess(entries[j].0, entries[i].0);
      StringLessIrreflexive(entries[i].0);
    }
  }

  /** The puzzle listing: one row `[shortName, longName]` per entry, in map order. */
  function NameRows(entries: seq<(string, Scrambler)>): seq<seq<string>> {
    seq(|entries|, i requires 0 <= i < |entries| => [entries[i].1.shortName, entries[i].1.longName])
  }

  /** In a sorted map, the listing row at the position where lookup finds a puzzle's key
      holds that puzzle's short and long names. */
  lemma NameRowsAgreeWithLookup(entries: seq<(string, Scrambler)>, k: nat)
    requires KeysAscending(entries) && k < |entries|
    ensures Find(entries, entries[k].0).Some?
    ensures NameRows(entries)[Find(entries, entries[k].0).value] == [entries[k].1.shortName, entries[k].1.longName]
  {
    FindInSortedMap(entries, k);
  }

  function GenerationFor(query: Query): (g: Generation)
    ensures g.count <= MAX_COUNT
    ensures g.Seeded? <==> query.seed.Some?
    ensures g.Seeded? ==> g.seed == query.seed.value && g.offset == EffectiveOffset(query.offset)
    ensures g.count == EffectiveCount(query.count)
  {
    var count := EffectiveCount(query.count);
    if query.seed.Some? then Seeded(query.seed.value, count, EffectiveOffset(query.offset))
    else Unseeded(count)
  }

  function Generate(scrambler: Scrambler, generation: Generation): seq<string> {
    match generation
    case Unseeded(count) => scrambler.generateScrambles(count)
    case Seeded(seed, count, offset) => scrambler.generateSeededScrambles(seed, count, offset)
  }

  /** The scrambles served for a query: seeded generation with the capped count and offset
      when a seed is given, unseeded generation with the capped count otherwise. */
  lemma GenerateForQuery(scrambler: Scrambler, query: Query)
    ensures query.seed.Some? ==>
              Generate(scrambler, GenerationFor(query))
              == scrambler.generateSeededScrambles(query.seed.value, EffectiveCount(query.count), EffectiveOffset(query.offset))
    ensures query.seed.None? ==>
              Generate(scrambler, GenerationFor(query)) == scrambler.generateScrambles(EffectiveCount(query.count))
  {
  }

  /** The decision of the handler for `path` (its first segment is the handler's own name):
      a bare path lists the puzzles; a segment with the wrong number of periods or naming
      no puzzle is refused with its message; otherwise scrambles of the named puzzle are
      generated, at most `MAX_COUNT` of them, and the extension picks the format. */
  function Route(entries: seq<(string, Scrambler)>, path: seq<string>, query: Query): (r: Decision)
    requires |path| >= 1
    ensures r.ListPuzzles? <==> |path| == 1
    ensures r.Refuse? <==> |path| > 1 && (ParseSegment(path[1]).Err? ||
                                          forall i :: 0 <= i < |entries| ==> entries[i].0 != ParseSegment(path[1]).value.puzzle)
    ensures r.Refuse? && ParseSegment(path[1]).Err? ==> r.message == PERIODS_ERROR + path[1]
    ensures r.Refuse? && ParseSegment(path[1]).Ok? ==> r.message == SCRAMBLER_ERROR + ParseSegment(path[1]).value.puzzle
    ensures r.Serve? ==> && ParseSegment(path[1]) == Ok(r.target)
                         && r.entry < |entries| && entries[r.entry].0 == r.target.puzzle
                         && r.generation == GenerationFor(query)
                         && r.format == SelectFormat(r.target.ext)
  {
    if |path| == 1 then ListPuzzles
    else
      ParseSegmentErrors(path[1]);
      match ParseSegment(path[1])
      case Err(message) => Refuse(message)
      case Ok(target) =>
        match Find(entries, target.puzzle)
        case None => Refuse(SCRAMBLER_ERROR + target.puzzle)
        case Some(k) => Serve(target, k, GenerationFor(query), SelectFormat(target.ext))
  }

  /** What the reply to a `Serve` decision holds. */
  predicate IsServed(reply: Reply, scrambler: Scrambler, target: Target, scrambles: seq<string>,
                     format: Result<Format, string>, query: Query, measure: string -> real)
  {
    match format
    case Ok(PlainText) => reply == TextReply(Listing(scrambles))
    case Ok(Json) => reply == JsonReply(StringList(scrambles), query.callback)
    case Ok(Pdf) =>
      && reply.PdfReply? && reply.disposition == INLINE
      && IsRendering(reply.doc, scrambler, scrambles, target.title, query.width, query.height, query.scheme, measure)
    case Err(message) => reply == TextReply(message)
  }

  class ScrambleHandler {
    /** The puzzles by name, in the ascending order of a sorted map. */
    const scramblers: seq<(string, Scrambler)>
    /** The puzzle listing, built once. */
    const puzzleNamesJson: JsonValue

    /** Fills the N x 2 name array row by row in map order, then keeps it for listing. */
    constructor (scramblers: seq<(string, Scrambler)>)
      requires KeysAscending(scramblers)
      ensures this.scramblers == scramblers
      ensures puzzleNamesJson == StringTable(NameRows(scramblers))
    {
      this.scramblers := scramblers;
      var puzzleNames := new string[|scramblers|, 2];
      var i := 0;
      while i < |scramblers|
        invariant 0 <= i <= |scramblers|
        invariant forall k :: 0 <= k < i ==>
                    puzzleNames[k, 0] == scramblers[k].1.shortName && puzzleNames[k, 1] == scramblers[k].1.longName
      {
        var shortName := scramblers[i].1.shortName;
        var longName := scramblers[i].1.longName;
        puzzleNames[i, 0] := shortName;
        puzzleNames[i, 1] := longName;
        i := i + 1;
      }
      var rows := seq(puzzleNames.Length0, k requires 0 <= k < puzzleNames.Length0 reads puzzleNames =>
                        [puzzleNames[k, 0], puzzleNames[k, 1]]);
      assert rows == NameRows(scramblers);
      puzzleNamesJson := StringTable(rows);
    }

    /** Answers one request; label widths of the PDF table come from `measure`. */
    method WrappedHandle(path: seq<string>, query: Query, measure: string -> real) returns (reply: Reply)
      requires |path| >= 1
      ensures Route(scramblers, path, query).ListPuzzles? ==> reply == JsonReply(puzzleNamesJson, query.callback)
      ensures Route(scramblers, path, query).Refuse? ==> reply == TextReply(Route(scramblers, path, query).message)
      ensures Route(scramblers, path, query).Serve? ==>
                var r := Route(scramblers, path, query);
                var scrambler := scramblers[r.entry].1;
                IsServed(reply, scrambler, r.target, Generate(scrambler, r.generation), r.format, query, measure)
    {
      if |path| == 1 {
        reply := JsonReply(puzzleNamesJson, query.callback);
        return;
      }
      var target;
      match ParseSegment(path[1]) {
        case Err(message) =>
          reply := TextReply(message);
          return;
        case Ok(t) =>
          target := t;
      }
      var entry := Find(scramblers, target.puzzle);
      if entry.None? {
        reply := TextReply(SCRAMBLER_ERROR + target.puzzle);
        return;
      }
      var scrambler := scramblers[entry.value].1;

      var count := EffectiveCount(query.count);
      var scrambles;
      if query.seed.Some? {
        var offset := EffectiveOffset(query.offset);
        scrambles := scrambler.generateSeededScrambles(query.seed.value, count, offset);
      } else {
        scrambles := scrambler.generateScrambles(count);
      }

      if target.ext.None? || target.ext.value == "txt" {
        var text := BuildListing(scrambles);
        reply := TextReply(text);
      } else if target.ext.value == "json" {
        reply := JsonReply(StringList(scrambles), query.callback);
      } else if target.ext.value == "pdf" {
        var doc := CreatePdf(scrambler, scrambles, target.title, query.width, query.height, query.scheme, measure);
        reply := PdfReply(doc, INLINE);
      } else {
        reply := TextReply(EXTENSION_ERROR + target.ext.value);
      }
    }
  }
}
