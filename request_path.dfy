/** The pure decisions of the request handler: reading `<puzzle>[.<title>].<ext>`
    out of the second path segment, choosing the output format from the extension,
    and capping the `count` and `offset` query parameters. */
module RequestPath {
  import opened Wrappers
  import opened JavaSplit

  /** Largest number of scrambles (and largest offset) one request may ask for. */
  const MAX_COUNT: int := 100

  const PERIODS_ERROR := "Invalid number of periods: "
  const EXTENSION_ERROR := "Invalid extension: "

  /** What the second path segment names; absent parts are Java's null. */
  datatype Target = Target(puzzle: string, title: Option<string>, ext: Option<string>)

  datatype Format = PlainText | Json | Pdf

  /** Splits the segment on periods: one part is the puzzle, two parts are puzzle and
      extension, three parts are puzzle, title and extension; any other number of parts
      is refused with a message quoting the whole segment. */
  function ParseSegment(segment: string): (r: Result<Target, string>)
    ensures r.Ok? ==> WellFormed(r.value)
    ensures r.Err? ==> r.error == PERIODS_ERROR + segment
  {
    var parts := Split(segment, '.');
    if |parts| == 1 then Ok(Target(parts[0], None, None))
    else if |parts| == 2 then Ok(Target(parts[0], None, Some(parts[1])))
    else if |parts| == 3 then Ok(Target(parts[0], Some(parts[1]), Some(parts[2])))
    else Err(PERIODS_ERROR + segment)
  }

  /** A target that some segment can name: no part holds a period, a title only comes
      with an extension, and an extension is never empty (Java drops a trailing empty part). */
  predicate WellFormed(t: Target) {
    && '.' !in t.puzzle
    && (t.title.Some? ==> t.ext.Some? && '.' !in t.title.value)
    && (t.ext.Some? ==> '.' !in t.ext.value && t.ext.value != "")
  }

  /** The shortest segment that names `t`. */
  function Render(t: Target): string {
    match (t.title, t.ext)
    case (None, None) => t.puzzle
    case (None, Some(e)) => t.puzzle + "." + e
    case (Some(ti), Some(e)) => t.puzzle + "." + ti + "." + e
    case (Some(ti), None) => t.puzzle + "." + ti
  }

  function Dots(k: nat): (r: string)
    ensures |r| == k && forall i :: 0 <= i < k ==> r[i] == '.'
  {
    seq(k, _ => '.')
  }

  /** The error path: the segment is refused exactly when it does not split into one to
      three parts, and the message is the fixed text followed by the whole segment. */
  lemma ParseSegmentErrors(segment: string)
    ensures ParseSegment(segment).Err? <==> !(1 <= |Split(segment, '.')| <= 3)
    ensures ParseSegment(segment).Err? ==> ParseSegment(segment).error == PERIODS_ERROR + segment
    ensures (segment != [] && forall i :: 0 <= i < |segment| ==> segment[i] == '.') ==>
              ParseSegment(segment) == Err(PERIODS_ERROR + segment)
  {
    SplitEmptyIffAllSeparators(segment, '.');
  }

  /** Every well-formed target is read back from its rendering. */
  lemma ParseRender(t: Target)
    requires WellFormed(t)
    ensures ParseSegment(Render(t)) == Ok(t)
  {
    match (t.title, t.ext)
    case (None, None) =>
    case (None, Some(e)) =>
      var s := t.puzzle + "." + e;
      PiecesOfTwo(t.puzzle, e, '.');
      assert s[|t.puzzle|] == '.';
      assert Split(s, '.') == [t.puzzle, e];
    case (Some(ti), Some(e)) =>
      var s := t.puzzle + "." + ti + "." + e;
      PiecesOfTwo(ti, e, '.');
      var tail := "." + ti + "." + e;
      assert tail[1..] == ti + "." + e;
      assert Pieces(tail, '.') == [""] + [ti, e];
      PiecesOfFreePrefix(t.puzzle, tail, '.');
      assert s == t.puzzle + tail;
      assert t.puzzle + "" == t.puzzle;
      assert Pieces(s, '.') == [t.puzzle, ti, e];
      assert s[|t.puzzle|] == '.';
      assert Split(s, '.') == [t.puzzle, ti, e];
  }

  /** Conversely, whatever a segment parses to is well formed, and the segment is its
      rendering followed only by the periods that Java's split drops. */
  lemma ParseSound(segment: string)
    requires ParseSegment(segment).Ok?
    ensures WellFormed(ParseSegment(segment).value)
    ensures exists k: nat :: segment == Render(ParseSegment(segment).value) + Dots(k)
  {
    var t := ParseSegment(segment).value;
    if '.' !in segment {
      assert segment == Render(t) + Dots(0);
    } else {
      var ps := Pieces(segment, '.');
      var sp := Split(segment, '.');
      JoinPieces(segment, '.');
      JoinTrailingEmpty(ps, |sp|);
      assert sp == ps[..|sp|];
      if |sp| == 1 {
        assert Join(sp, '.') == sp[0];
      } else if |sp| == 2 {
        assert sp[1..] == [sp[1]];
        assert Join(sp, '.') == sp[0] + "." + sp[1];
      } else {
        assert sp[1..][1..] == [sp[2]];
        assert Join(sp[1..], '.') == sp[1] + "." + sp[2];
        assert Join(sp, '.') == sp[0] + "." + sp[1] + "." + sp[2];
      }
      assert segment == Render(t) + Dots(|ps| - |sp|);
    }
  }

  /** Joining pieces whose tail from `n` on is empty is joining the first `n` and
      appending one period per dropped piece. */
  lemma {:induction false} JoinTrailingEmpty(ps: seq<string>, n: nat)
    requires 1 <= n <= |ps|
    requires forall i :: n <= i < |ps| ==> ps[i] == ""
    ensures Join(ps, '.') == Join(ps[..n], '.') + Dots(|ps| - n)
    decreases |ps|
  {
    if n == 1 {
      if |ps| > 1 {
        JoinTrailingEmpty(ps[1..], 1);
        assert Join(ps[1..][..1], '.') == "";
        assert Dots(|ps| - 1) == "." + Dots(|ps| - 2);
      } else {
        assert ps[..1] == ps;
      }
    } else {
      JoinTrailingEmpty(ps[1..], n - 1);
      assert ps[1..][..n - 1] == ps[..n][1..];
    }
  }

  /** An empty middle part is an empty title, not a missing one. */
  lemma EmptyTitleExample()
    ensures ParseSegment("333..pdf") == Ok(Target("333", Some(""), Some("pdf")))
  {
    PiecesOfTwo("", "pdf", '.');
    assert "" + "." + "pdf" == ".pdf";
    assert "..pdf"[1..] == ".pdf";
    assert Pieces("..pdf", '.') == [""] + Pieces(".pdf", '.');
    PiecesOfFreePrefix("333", "..pdf", '.');
    assert "333" + "..pdf" == "333..pdf";
    assert "333"[2] == '3';
    assert "333..pdf"[3] == '.';
    assert Pieces(".pdf", '.') == ["", "pdf"];
    assert Pieces("..pdf", '.') == ["", "", "pdf"];
    assert "333" + "" == "333";
    assert Pieces("333..pdf", '.') == ["333", "", "pdf"];
    assert Split("333..pdf", '.') == ["333", "", "pdf"];
  }

  /** A trailing period is dropped, so the segment names the text listing. */
  lemma TrailingPeriodExample()
    ensures ParseSegment("333.") == Ok(Target("333", None, None))
  {
    assert "."[1..] == "";
    assert Pieces(".", '.') == [""] + Pieces("", '.');
    PiecesOfFreePrefix("333", ".", '.');
    assert "333" + "." == "333.";
    assert "333."[3] == '.';
    assert Pieces(".", '.') == ["", ""];
    assert "333" + "" == "333";
    assert Pieces("333.", '.') == ["333", ""];
    assert ["333", ""][..1] == ["333"];
    assert DropTrailingEmpty(["333", ""]) == DropTrailingEmpty(["333"]);
    assert Split("333.", '.') == ["333"];
  }

  /** Four parts are refused. */
  lemma FourPartsExample()
    ensures ParseSegment("a.b.c.d") == Err(PERIODS_ERROR + "a.b.c.d")
  {
    PiecesOfTwo("c", "d", '.');
    assert "c" + "." + "d" == "c.d";
    assert ".c.d"[1..] == "c.d";
    assert Pieces(".c.d", '.') == [""] + Pieces("c.d", '.');
    PiecesOfFreePrefix("b", ".c.d", '.');
    assert "b" + ".c.d" == "b.c.d";
    assert ".b.c.d"[1..] == "b.c.d";
    assert Pieces(".b.c.d", '.') == [""] + Pieces("b.c.d", '.');
    PiecesOfFreePrefix("a", ".b.c.d", '.');
    assert "a" + ".b.c.d" == "a.b.c.d";
    assert "a.b.c.d"[1] == '.';
    assert |Split("a.b.c.d", '.')| == 4;
  }

  /** Extension dispatch: a missing extension or "txt" gives the text listing, "json" and
      "pdf" give theirs, and any other extension is refused naming it. */
  function SelectFormat(ext: Option<string>): (r: Result<Format, string>)
    ensures r == Ok(PlainText) <==> ext == None || ext == Some("txt")
    ensures r == Ok(Json) <==> ext == Some("json")
    ensures r == Ok(Pdf) <==> ext == Some("pdf")
    ensures r.Err? <==> ext.Some? && ext.value != "txt" && ext.value != "json" && ext.value != "pdf"
    ensures r.Err? ==> r.error == EXTENSION_ERROR + ext.value
  {
    if ext == None || ext.value == "txt" then Ok(PlainText)
    else if ext.value == "json" then Ok(Json)
    else if ext.value == "pdf" then Ok(Pdf)
    else Err(EXTENSION_ERROR + ext.value)
  }

  /** `Math.min(toInt(param, default), MAX_COUNT)`: capped from above only. */
  function CapAtMaxCount(requested: Option<int>, default: int): (r: int)
    ensures r <= MAX_COUNT
    ensures r == MAX_COUNT || r == requested.GetOr(default)
    ensures requested.GetOr(default) <= MAX_COUNT ==> r == requested.GetOr(default)
  {
    var n := requested.GetOr(default);
    if n < MAX_COUNT then n else MAX_COUNT
  }

  /** Number of scrambles generated: one when absent, never more than `MAX_COUNT`,
      and any request up to `MAX_COUNT` (zero and negatives included) is kept as is. */
  function EffectiveCount(requested: Option<int>): (r: int)
    ensures r <= MAX_COUNT
    ensures requested.None? ==> r == 1
    ensures requested.Some? && requested.value <= MAX_COUNT ==> r == requested.value
    ensures requested.Some? && requested.value > MAX_COUNT ==> r == MAX_COUNT
  {
    CapAtMaxCount(requested, 1)
  }

  /** Offset into a seeded sequence: zero when absent, otherwise capped like the count. */
  function EffectiveOffset(requested: Option<int>): (r: int)
    ensures r <= MAX_COUNT
    ensures requested.None? ==> r == 0
    ensures requested.Some? && requested.value <= MAX_COUNT ==> r == requested.value
    ensures requested.Some? && requested.value > MAX_COUNT ==> r == MAX_COUNT
  {
    CapAtMaxCount(requested, 0)
  }
}
