/** `String.split(regex)` with limit 0, for the two patterns the modelled code
    uses: a single literal character (`"="`) and a run of whitespace (`"\\s+"`).
    Java splits around every match, drops all trailing empty strings, and returns
    the input unchanged, as the only element, when the pattern does not match. */
module JavaSplit {

  /** The characters `\s` matches in a Java regular expression:
      space, tab, line feed, vertical tab, form feed and carriage return. */
  predicate IsWhitespace(c: char) {
    c == ' ' || '\t' <= c <= '\r'
  }

  predicate NoWhitespace(s: string) {
    forall i | 0 <= i < |s| :: !IsWhitespace(s[i])
  }

  /** Glues pieces back together with one separator between neighbours. */
  function Join(ps: seq<string>, sep: char): string
    requires |ps| >= 1
  {
    if |ps| == 1 then ps[0] else ps[0] + [sep] + Join(ps[1..], sep)
  }

  /** Removes every empty string at the end of a split result. */
  function DropTrailingEmpty(ps: seq<string>): (r: seq<string>)
    ensures |r| <= |ps| && r == ps[..|r|]
    ensures |r| > 0 ==> r[|r| - 1] != ""
    ensures forall i | |r| <= i < |ps| :: ps[i] == ""
  {
    if |ps| == 0 then []
    else if ps[|ps| - 1] == "" then DropTrailingEmpty(ps[..|ps| - 1])
    else ps
  }

  /** A non-empty piece survives the trimming, and so does everything before it. */
  lemma DropTrailingEmptyKeeps(ps: seq<string>, j: nat)
    requires j < |ps| && ps[j] != ""
    ensures |DropTrailingEmpty(ps)| > j
  {
  }

  // ---------------------------------------------------------------------------
  // Splitting on one literal character

  /** The pieces of `s` between occurrences of `sep`, empty pieces included. */
  function Pieces(s: string, sep: char): (r: seq<string>)
    ensures |r| >= 1
    ensures forall i | 0 <= i < |r| :: sep !in r[i]
  {
    if |s| == 0 then [""]
    else
      var rest := Pieces(s[1..], sep);
      if s[0] == sep then [""] + rest else [[s[0]] + rest[0]] + rest[1..]
  }

  /** `s.split(String.valueOf(sep))`. */
  function SplitOn(s: string, sep: char): (r: seq<string>)
    ensures sep !in s ==> r == [s]
    ensures forall i | 0 <= i < |r| :: sep !in r[i]
    ensures sep in s ==> |r| == 0 || r[|r| - 1] != ""
    ensures |r| <= |Pieces(s, sep)| && r == Pieces(s, sep)[..|r|]
    ensures forall i | |r| <= i < |Pieces(s, sep)| :: Pieces(s, sep)[i] == ""
  {
    if sep !in s then
      assert Pieces(s, sep) == [s] by { PiecesOfSepFree(s, sep); }
      [s]
    else DropTrailingEmpty(Pieces(s, sep))
  }

  /** Splitting keeps every character that is not a separator: joining the
      pieces with the separator gives the input back. */
  lemma {:induction false} JoinPieces(s: string, sep: char)
    ensures Join(Pieces(s, sep), sep) == s
    decreases |s|
  {
    if |s| > 0 {
      var rest := Pieces(s[1..], sep);
      JoinPieces(s[1..], sep);
      if s[0] == sep {
        assert Pieces(s, sep)[1..] == rest;
      } else {
        var r := Pieces(s, sep);
        if |rest| == 1 {
          assert r == [[s[0]] + rest[0]];
        } else {
          assert r[1..] == rest[1..];
          assert Join(r, sep) == [s[0]] + rest[0] + [sep] + Join(rest[1..], sep);
        }
        assert Join(r, sep) == [s[0]] + Join(rest, sep);
        assert s == [s[0]] + s[1..];
      }
    }
  }

  /** A separator-free prefix becomes the head of the first piece. */
  lemma {:induction false} PiecesPrefix(a: string, t: string, sep: char)
    requires sep !in a
    ensures Pieces(a + t, sep) == [a + Pieces(t, sep)[0]] + Pieces(t, sep)[1..]
    decreases |a|
  {
    if |a| == 0 {
      assert a + t == t;
      assert a + Pieces(t, sep)[0] == Pieces(t, sep)[0];
      assert Pieces(t, sep) == [Pieces(t, sep)[0]] + Pieces(t, sep)[1..];
    } else {
      assert (a + t)[1..] == a[1..] + t;
      PiecesPrefix(a[1..], t, sep);
      assert [a[0]] + (a[1..] + Pieces(t, sep)[0]) == a + Pieces(t, sep)[0];
    }
  }

  lemma PiecesOfSepFree(a: string, sep: char)
    requires sep !in a
    ensures Pieces(a, sep) == [a]
  {
    PiecesPrefix(a, "", sep);
    assert a + "" == a;
  }

  /** A separator after a separator-free prefix closes the first piece. */
  lemma PiecesCons(a: string, u: string, sep: char)
    requires sep !in a
    ensures Pieces(a + [sep] + u, sep) == [a] + Pieces(u, sep)
  {
    PiecesPrefix(a, [sep] + u, sep);
    assert a + [sep] + u == a + ([sep] + u);
    assert ([sep] + u)[1..] == u;
    assert Pieces([sep] + u, sep) == [""] + Pieces(u, sep);
    assert a + "" == a;
  }

  // ---------------------------------------------------------------------------
  // Splitting on runs of whitespace

  /** The pieces of `s` between maximal runs of whitespace, including the empty
      piece before a leading run and the one after a trailing run. */
  function WsPieces(s: string): (r: seq<string>)
    ensures |r| >= 1
    ensures forall i | 0 <= i < |r| :: NoWhitespace(r[i])
    ensures |s| > 0 && !IsWhitespace(s[0]) ==> |r[0]| > 0
    ensures forall i | 0 < i < |r| - 1 :: r[i] != ""
  {
    if |s| == 0 then [""]
    else
      var rest := WsPieces(s[1..]);
      if IsWhitespace(s[0]) then
        (if |s| > 1 && IsWhitespace(s[1]) then rest else [""] + rest)
      else [[s[0]] + rest[0]] + rest[1..]
  }

  /** `s.split("\\s+")`. */
  function SplitWhitespace(s: string): (r: seq<string>)
    ensures NoWhitespace(s) ==> r == [s]
    ensures forall i | 0 <= i < |r| :: NoWhitespace(r[i])
    ensures forall i | 0 < i < |r| :: r[i] != ""
    ensures |r| <= |WsPieces(s)| && r == WsPieces(s)[..|r|]
    ensures forall i | |r| <= i < |WsPieces(s)| :: WsPieces(s)[i] == ""
    ensures !NoWhitespace(s) ==> |r| == 0 || r[|r| - 1] != ""
  {
    if NoWhitespace(s) then
      assert WsPieces(s) == [s] by { WsPiecesPrefix(s, ""); assert s + "" == s; }
      [s]
    else DropTrailingEmpty(WsPieces(s))
  }

  /** `s` with every maximal run of whitespace replaced by one space. */
  function Collapse(s: string): (c: string)
    ensures |c| <= |s|
  {
    if |s| == 0 then ""
    else if IsWhitespace(s[0]) then
      (if |s| > 1 && IsWhitespace(s[1]) then Collapse(s[1..]) else [' '] + Collapse(s[1..]))
    else [s[0]] + Collapse(s[1..])
  }

  /** Splitting on whitespace loses nothing but the width of each whitespace run:
      joining the raw pieces with single spaces gives the collapsed input. */
  lemma {:induction false} JoinWsPieces(s: string)
    ensures Join(WsPieces(s), ' ') == Collapse(s)
    decreases |s|
  {
    if |s| > 0 {
      var rest := WsPieces(s[1..]);
      JoinWsPieces(s[1..]);
      var r := WsPieces(s);
      if IsWhitespace(s[0]) {
        if !(|s| > 1 && IsWhitespace(s[1])) {
          assert r[1..] == rest;
        }
      } else {
        if |rest| == 1 {
          assert r == [[s[0]] + rest[0]];
        } else {
          assert r[1..] == rest[1..];
          assert Join(r, ' ') == [s[0]] + rest[0] + [' '] + Join(rest[1..], ' ');
        }
        assert Join(r, ' ') == [s[0]] + Join(rest, ' ');
      }
    }
  }

  /** A whitespace-free prefix becomes the head of the first piece. */
  lemma {:induction false} WsPiecesPrefix(a: string, t: string)
    requires NoWhitespace(a)
    ensures WsPieces(a + t) == [a + WsPieces(t)[0]] + WsPieces(t)[1..]
    decreases |a|
  {
    if |a| == 0 {
      assert a + t == t;
      assert a + WsPieces(t)[0] == WsPieces(t)[0];
      assert WsPieces(t) == [WsPieces(t)[0]] + WsPieces(t)[1..];
    } else {
      assert (a + t)[1..] == a[1..] + t;
      WsPiecesPrefix(a[1..], t);
      assert [a[0]] + (a[1..] + WsPieces(t)[0]) == a + WsPieces(t)[0];
    }
  }

  /** Words joined by single spaces split back into the same words; this is how
      both a callback payload and a callback response are read. */
  lemma {:induction false} SplitWhitespaceOfJoin(words: seq<string>)
    requires |words| >= 1
    requires forall i | 0 <= i < |words| :: words[i] != "" && NoWhitespace(words[i])
    ensures SplitWhitespace(Join(words, ' ')) == words
    decreases |words|
  {
    WsPiecesOfJoin(words);
    var s := Join(words, ' ');
    if |words| == 1 {
      assert s == words[0];
    } else {
      assert s[|words[0]|] == ' ';
      assert !NoWhitespace(s);
      assert DropTrailingEmpty(words) == words;
    }
  }

  lemma {:induction false} WsPiecesOfJoin(words: seq<string>)
    requires |words| >= 1
    requires forall i | 0 <= i < |words| :: words[i] != "" && NoWhitespace(words[i])
    ensures WsPieces(Join(words, ' ')) == words
    decreases |words|
  {
    if |words| == 1 {
      WsPiecesPrefix(words[0], "");
      assert words[0] + "" == words[0];
    } else {
      var tail := Join(words[1..], ' ');
      WsPiecesOfJoin(words[1..]);
      assert tail[0] == words[1][0];
      var u := [' '] + tail;
      assert u[1..] == tail;
      assert WsPieces(u) == [""] + words[1..];
      WsPiecesPrefix(words[0], u);
      assert Join(words, ' ') == words[0] + u;
      assert words[0] + "" == words[0];
      assert words == [words[0]] + words[1..];
    }
  }

  lemma JoinStartsWithFirst(ps: seq<string>, sep: char)
    requires |ps| >= 1
    ensures |Join(ps, sep)| >= |ps[0]| && Join(ps, sep)[..|ps[0]|] == ps[0]
  {
    if |ps| > 1 {
      assert Join(ps, sep) == ps[0] + ([sep] + Join(ps[1..], sep));
    }
  }

  /** One space in front of words joined by spaces adds an empty first token and
      keeps every word, each one position further right. */
  lemma SplitWhitespaceOfLeadingSpace(words: seq<string>)
    requires |words| >= 1
    requires forall i | 0 <= i < |words| :: words[i] != "" && NoWhitespace(words[i])
    ensures SplitWhitespace([' '] + Join(words, ' ')) == [""] + words
  {
    var t := Join(words, ' ');
    WsPiecesOfJoin(words);
    var s := [' '] + t;
    assert s[1..] == t;
    JoinStartsWithFirst(words, ' ');
    assert t[0] == words[0][0];
    assert WsPieces(s) == [""] + WsPieces(t);
    assert !NoWhitespace(s) by { assert IsWhitespace(s[0]); }
    assert words[|words| - 1] != "";
    DropTrailingEmptyCons("", words);
  }

  lemma DropTrailingEmptyCons(x: string, ps: seq<string>)
    requires |ps| > 0 && ps[|ps| - 1] != ""
    ensures DropTrailingEmpty([x] + ps) == [x] + ps
  {
    var r := [x] + ps;
    assert r[|r| - 1] == ps[|ps| - 1];
  }

  /** Input that starts with whitespace yields an empty first token, so every
      later field shifts one position to the right. */
  lemma {:induction false} LeadingWhitespaceGivesEmptyFirstToken(s: string)
    requires |s| > 0 && IsWhitespace(s[0])
    requires !forall i | 0 <= i < |s| :: IsWhitespace(s[i])
    ensures |SplitWhitespace(s)| >= 2 && SplitWhitespace(s)[0] == ""
  {
    var j := WsPiecesLeadingEmpty(s);
    DropTrailingEmptyKeeps(WsPieces(s), j);
  }

  lemma {:induction false} WsPiecesLeadingEmpty(s: string) returns (j: nat)
    requires |s| > 0 && IsWhitespace(s[0])
    requires !forall i | 0 <= i < |s| :: IsWhitespace(s[i])
    ensures WsPieces(s)[0] == ""
    ensures 0 < j < |WsPieces(s)| && WsPieces(s)[j] != ""
    decreases |s|
  {
    var k :| 0 <= k < |s| && !IsWhitespace(s[k]);
    assert |s| > 1;
    var t := s[1..];
    assert !IsWhitespace(t[k - 1]);
    if IsWhitespace(s[1]) {
      j := WsPiecesLeadingEmpty(t);
    } else {
      j := 1;
    }
  }
}
