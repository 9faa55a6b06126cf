/** `String.split` on a single literal separator character, with a limit of zero:
    the string is cut at every separator, then trailing empty strings are dropped;
    a string with no separator at all comes back unchanged as the only element
    (so the empty string gives one empty part, while a string of separators only
    gives no part at all). */
module JavaSplit {

  /** Every piece between separators, empty ones included: `k` separators give `k + 1` pieces. */
  function Pieces(s: string, sep: char): (r: seq<string>)
    ensures |r| >= 1
    ensures forall i :: 0 <= i < |r| ==> sep !in r[i]
    decreases |s|
  {
    if s == [] then [""]
    else
      var rest := Pieces(s[1..], sep);
      if s[0] == sep then [""] + rest else [[s[0]] + rest[0]] + rest[1..]
  }

  /** Puts pieces back together with one separator between neighbours. */
  function Join(ps: seq<string>, sep: char): string
    decreases |ps|
  {
    if ps == [] then "" else if |ps| == 1 then ps[0] else ps[0] + [sep] + Join(ps[1..], sep)
  }

  /** Number of occurrences of `c` in `s`. */
  function Count(s: string, c: char): nat
    decreases |s|
  {
    if s == [] then 0 else (if s[0] == c then 1 else 0) + Count(s[1..], c)
  }

  /** Drops the empty strings at the end of `ps`. */
  function DropTrailingEmpty(ps: seq<string>): (r: seq<string>)
    ensures |r| <= |ps| && r == ps[..|r|]
    ensures forall i :: |r| <= i < |ps| ==> ps[i] == ""
    ensures r != [] ==> r[|r| - 1] != ""
    decreases |ps|
  {
    if ps == [] then []
    else if ps[|ps| - 1] == "" then DropTrailingEmpty(ps[..|ps| - 1])
    else ps
  }

  /** `s.split(sep)` with Java's semantics: no part holds the separator, and when the
      separator occurs the parts are the pieces with only empty pieces cut off at the end. */
  function Split(s: string, sep: char): (r: seq<string>)
    ensures forall i :: 0 <= i < |r| ==> sep !in r[i]
    ensures sep !in s ==> r == [s]
    ensures sep in s ==> |r| <= |Pieces(s, sep)| && r == Pieces(s, sep)[..|r|]
    ensures sep in s ==> forall i :: |r| <= i < |Pieces(s, sep)| ==> Pieces(s, sep)[i] == ""
    ensures sep in s && r != [] ==> r[|r| - 1] != ""
  {
    if sep !in s then [s] else DropTrailingEmpty(Pieces(s, sep))
  }

  /** Cutting and joining again restores the string. */
  lemma {:induction false} JoinPieces(s: string, sep: char)
    ensures Join(Pieces(s, sep), sep) == s
    decreases |s|
  {
    if s != [] {
      var rest := Pieces(s[1..], sep);
      JoinPieces(s[1..], sep);
      if s[0] == sep {
        assert Pieces(s, sep) == [""] + rest;
        assert ([""] + rest)[1..] == rest;
      } else {
        var ps := [[s[0]] + rest[0]] + rest[1..];
        if |rest| == 1 {
          assert Join(ps, sep) == [s[0]] + rest[0] == [s[0]] + s[1..];
        } else {
          assert ps[1..] == rest[1..];
          assert Join(rest, sep) == rest[0] + [sep] + Join(rest[1..], sep);
        }
      }
      assert [s[0]] + s[1..] == s;
    }
  }

  /** There is one piece more than there are separators. */
  lemma {:induction false} PiecesCount(s: string, sep: char)
    ensures |Pieces(s, sep)| == Count(s, sep) + 1
    decreases |s|
  {
    if s != [] {
      PiecesCount(s[1..], sep);
    }
  }

  /** A piece sequence that starts with a separator-free prefix `a`. */
  lemma {:induction false} PiecesOfFreePrefix(a: string, rest: string, sep: char)
    requires sep !in a
    ensures Pieces(a + rest, sep) == [a + Pieces(rest, sep)[0]] + Pieces(rest, sep)[1..]
    decreases |a|
  {
    if a != [] {
      PiecesOfFreePrefix(a[1..], rest, sep);
      assert (a + rest)[1..] == a[1..] + rest;
      assert [a[0]] + (a[1..] + Pieces(rest, sep)[0]) == a + Pieces(rest, sep)[0];
    } else {
      var ps := Pieces(rest, sep);
      assert a + rest == rest;
      assert a + ps[0] == ps[0];
      assert [ps[0]] + ps[1..] == ps;
    }
  }

  /** Pieces of `a`, a separator and `b`, where neither holds the separator. */
  lemma PiecesOfTwo(a: string, b: string, sep: char)
    requires sep !in a && sep !in b
    ensures Pieces(a + [sep] + b, sep) == [a, b]
  {
    PiecesOfFreePrefix(b, "", sep);
    assert b + "" == b;
    assert Pieces("", sep) == [""];
    assert Pieces(b, sep) == [b + ""] + [""][1..];
    assert Pieces(b, sep) == [b];
    var tail := [sep] + b;
    assert tail[1..] == b;
    assert Pieces(tail, sep) == [""] + [b];
    PiecesOfFreePrefix(a, tail, sep);
    assert a + [sep] + b == a + tail;
    assert a + "" == a;
  }

  /** Split gives no part exactly when the string is non-empty and made of separators only. */
  lemma {:induction false} SplitEmptyIffAllSeparators(s: string, sep: char)
    ensures Split(s, sep) == [] <==> (s != [] && forall i :: 0 <= i < |s| ==> s[i] == sep)
  {
    if s != [] && forall i :: 0 <= i < |s| ==> s[i] == sep {
      assert s[0] == sep;
      AllSeparatorsGiveEmptyPieces(s, sep);
    }
    if Split(s, sep) == [] {
      assert sep in s;
      var ps := Pieces(s, sep);
      forall i | 0 <= i < |s| ensures s[i] == sep {
        if s[i] != sep {
          SomeOtherCharGivesNonEmptyPiece(s, sep, i);
        }
      }
    }
  }

  lemma {:induction false} AllSeparatorsGiveEmptyPieces(s: string, sep: char)
    requires forall i :: 0 <= i < |s| ==> s[i] == sep
    ensures forall j :: 0 <= j < |Pieces(s, sep)| ==> Pieces(s, sep)[j] == ""
    decreases |s|
  {
    if s != [] {
      AllSeparatorsGiveEmptyPieces(s[1..], sep);
    }
  }

  lemma {:induction false} SomeOtherCharGivesNonEmptyPiece(s: string, sep: char, i: nat)
    requires i < |s| && s[i] != sep
    ensures exists j :: 0 <= j < |Pieces(s, sep)| && Pieces(s, sep)[j] != ""
    decreases |s|
  {
    var rest := Pieces(s[1..], sep);
    if i == 0 {
      assert Pieces(s, sep)[0] == [s[0]] + rest[0];
    } else {
      SomeOtherCharGivesNonEmptyPiece(s[1..], sep, i - 1);
      var j :| 0 <= j < |rest| && rest[j] != "";
      if s[0] == sep {
        assert Pieces(s, sep)[j + 1] == rest[j];
      } else if j == 0 {
        assert Pieces(s, sep)[0] == [s[0]] + rest[0];
      } else {
        assert Pieces(s, sep)[j] == rest[j];
      }
    }
  }
}
