/**
  What the lexer skips between tokens: exactly the blanks and the comments that are closed.
*/
module LexerGaps {
  import opened Wrappers
  import opened LexerText
  import opened LexerGrammar

  // ---------- blanks and comments ----------

  lemma PlacedFits(s: string, i: nat, t: string)
    requires At(s, i, t)
    ensures i + |t| <= |s|
  {
  }

  lemma PlacedBoth(s: string, i: nat, a: string, b: string)
    requires At(s, i, a + b)
    ensures At(s, i, a) && At(s, i + |a|, b)
  {
    assert s[i..i + |a|] == (a + b)[..|a|] == a;
    assert s[i + |a|..i + |a| + |b|] == (a + b)[|a|..] == b;
  }

  lemma PlacedThree(s: string, i: nat, a: string, b: string, d: string)
    requires At(s, i, a + b + d)
    ensures At(s, i, a) && At(s, i + |a|, b) && At(s, i + |a| + |b|, d)
  {
    hide At;
    PlacedBoth(s, i, a + b, d);
    PlacedBoth(s, i, a, b);
  }

  lemma {:induction false} FindGoes(s: string, i: nat, w: string, end: nat)
    requires i <= end <= |s| && At(s, end, w) && forall k :: i <= k < end ==> !At(s, k, w)
    ensures Find(s, i, w) == Some(end)
    decreases end - i
  {
    hide At;
    FindStep(s, i, w);
    if i < end {
      FindGoes(s, i + 1, w, end);
    }
  }

  lemma AtChar(s: string, i: nat, w: string, k: nat)
    requires k < |w| && At(s, i, w)
    ensures i + k < |s| && s[i + k] == w[k]
  {
    assert s[i..i + |w|][k] == s[i + k];
  }

  lemma NotAtChar(s: string, i: nat, w: string, k: nat)
    requires k < |w| && !(i + k < |s| && s[i + k] == w[k])
    ensures !At(s, i, w)
  {
    if At(s, i, w) {
      AtChar(s, i, w, k);
      assert false;
    }
  }

  lemma BlankSkipped(c: Chars, s: string, i: nat, x: char)
    requires At(s, i, [x]) && c.space(x)
    ensures i + 1 <= |s| && SkipFrom(c.space, s, i) == SkipFrom(c.space, s, i + 1)
  {
    AtChar(s, i, [x], 0);
  }

  /** Between the beginning and the end of a comment there is no other end. */
  lemma NotClosed(s: string, b: nat, body: string, end: nat)
    requires 0 < b && end == b + |body| < |s| && s[b - 1] == '*' && s[end] == '*' && At(s, b, body)
    requires NotClosing(body)
    ensures forall k :: b - 1 <= k < end ==> !At(s, k, "*/")
  {
    forall k | b - 1 <= k < end ensures !At(s, k, "*/") {
      if k + 1 < end {
        AtChar(s, b, body, k + 1 - b);
      }
      if b <= k {
        AtChar(s, b, body, k - b);
      }
      NotAtChar(s, k, "*/", if s[k] == '*' then 1 else 0);
    }
  }

  lemma CommentSkipped(c: Chars, s: string, i: nat, body: string)
    requires Usual(c) && At(s, i, "/*" + body + "*/") && GoodFiller(c, Comment(body))
    ensures i + |body| + 4 <= |s| && SkipFrom(c.space, s, i) == SkipFrom(c.space, s, i + |body| + 4)
  {
    hide SkipFrom, Find, At;
    var end := i + 2 + |body|;
    PlacedThree(s, i, "/*", body, "*/");
    AtChar(s, i, "/*", 0);
    AtChar(s, i, "/*", 1);
    AtChar(s, end, "*/", 0);
    AtChar(s, end, "*/", 1);
    NotClosed(s, i + 2, body, end);
    FindGoes(s, i + 1, "*/", end);
    assert Mark(s[i]);
    SkipStep(c.space, s, i);
  }

  lemma StarSkipped(c: Chars, s: string, i: nat)
    requires Usual(c) && At(s, i, "/*/")
    ensures i + 3 <= |s| && SkipFrom(c.space, s, i) == SkipFrom(c.space, s, i + 3)
  {
    hide SkipFrom, Find;
    assert "/*" + "/" == "/*/" && "/" + "*/" == "/*/";
    PlacedBoth(s, i, "/*", "/");
    PlacedBoth(s, i, "/", "*/");
    AtChar(s, i, "/*", 0);
    FindGoes(s, i + 1, "*/", i + 1);
    assert Mark(s[i]);
    SkipStep(c.space, s, i);
  }

  lemma LineSkipped(c: Chars, s: string, i: nat, body: string)
    requires Usual(c) && At(s, i, "//" + body + "\n") && GoodFiller(c, LineComment(body))
    ensures i + |body| + 3 <= |s| && SkipFrom(c.space, s, i) == SkipFrom(c.space, s, i + |body| + 3)
  {
    hide SkipFrom, Find, At;
    var end := i + 2 + |body|;
    PlacedThree(s, i, "//", body, "\n");
    AtChar(s, i, "//", 0);
    AtChar(s, i, "//", 1);
    AtChar(s, end, "\n", 0);
    NotAtChar(s, i, "/*", 1);
    forall k | i + 1 <= k < end ensures !At(s, k, "\n") {
      if k > i + 1 {
        AtChar(s, i + 2, body, k - i - 2);
      }
      NotAtChar(s, k, "\n", 0);
    }
    FindGoes(s, i + 1, "\n", end);
    assert Mark(s[i]);
    SkipStep(c.space, s, i);
  }

  /** Neither a blank nor a comment begins here. */
  predicate Solid(c: Chars, s: string, i: nat) {
    i < |s| ==> !c.space(s[i]) && !At(s, i, "/*") && !At(s, i, "//")
  }

  lemma FillerSkipped(c: Chars, s: string, i: nat, f: Filler)
    requires Usual(c) && At(s, i, FillerText(f)) && GoodFiller(c, f)
    ensures i + |FillerText(f)| <= |s| && SkipFrom(c.space, s, i) == SkipFrom(c.space, s, i + |FillerText(f)|)
  {
    hide SkipFrom, Usual;
    match f
    case Blank(x) => BlankSkipped(c, s, i, x);
    case Comment(body) => CommentSkipped(c, s, i, body);
    case StarComment => StarSkipped(c, s, i);
    case LineComment(body) => LineSkipped(c, s, i, body);
  }

  lemma {:induction false} GapGoes(c: Chars, s: string, i: nat, g: Gap)
    requires Usual(c) && At(s, i, GapText(g)) && GoodGap(c, g)
    ensures i + |GapText(g)| <= |s| && SkipFrom(c.space, s, i) == SkipFrom(c.space, s, i + |GapText(g)|)
    decreases |g|
  {
    hide SkipFrom, Usual, FillerText, GoodFiller, At;
    if g == [] {
      PlacedFits(s, i, "");
    } else {
      PlacedBoth(s, i, FillerText(g[0]), GapText(g[1..]));
      FillerSkipped(c, s, i, g[0]);
      GapGoes(c, s, i + |FillerText(g[0])|, g[1..]);
    }
  }

  /** Blanks and comments are skipped, and no more. */
  lemma GapSkipped(c: Chars, s: string, i: nat, g: Gap, end: nat)
    requires Usual(c) && At(s, i, GapText(g)) && GoodGap(c, g) && end == i + |GapText(g)| && Solid(c, s, end)
    ensures end <= |s| && SkipFrom(c.space, s, i) == Upto(end)
  {
    hide SkipFrom, Usual, GapText, GoodGap, At;
    GapGoes(c, s, i, g);
    SkipStep(c.space, s, end);
    if end == |s| {
      NotAtChar(s, end, "/*", 0);
      NotAtChar(s, end, "//", 0);
    }
  }

  // ---------- what is skipped ----------

  lemma {:induction false} FoundFirst(s: string, i: nat, w: string)
    requires i <= |s| && w != ""
    ensures Find(s, i, w).Some? ==> forall k :: i <= k < Find(s, i, w).value ==> !At(s, k, w)
    ensures Find(s, i, w).None? ==> forall k :: i <= k ==> !At(s, k, w)
    decreases |s| - i
  {
    hide At;
    FindStep(s, i, w);
    if i < |s| && !At(s, i, w) {
      FoundFirst(s, i + 1, w);
    } else if i == |s| {
      forall k | i <= k ensures !At(s, k, w) {
        NotAtChar(s, k, w, 0);
      }
    }
  }

  /** A comment begins here that is never closed. */
  ghost predicate OpenComment(s: string, i: nat) {
    At(s, i, "/*") && forall k :: i < k ==> !At(s, k, "*/")
  }

  /** A comment up to the end of its line begins here, in the last line. */
  ghost predicate OpenLine(s: string, i: nat) {
    At(s, i, "//") && forall k :: i < k ==> !At(s, k, "\n")
  }

  lemma AtAppend(s: string, i: nat, a: string, b: string)
    requires At(s, i, a) && At(s, i + |a|, b)
    ensures At(s, i, a + b)
  {
    assert s[i..i + |a| + |b|] == s[i..i + |a|] + s[i + |a|..i + |a| + |b|];
  }

  lemma AtSlice(s: string, i: nat, end: nat)
    requires i <= end <= |s|
    ensures At(s, i, s[i..end])
  {
  }

  /** The comment between its beginning and the end that is found. */
  lemma CommentIs(c: Chars, s: string, i: nat, end: nat) returns (f: Filler)
    requires At(s, i, "/*") && i < end && At(s, end, "*/") && forall k :: i + 1 <= k < end ==> !At(s, k, "*/")
    ensures GoodFiller(c, f) && At(s, i, FillerText(f)) && i + |FillerText(f)| == end + 2
  {
    hide At;
    AtChar(s, i, "/*", 0);
    AtChar(s, i, "/*", 1);
    AtChar(s, end, "*/", 1);
    if end == i + 1 {
      f := StarComment;
      CharsAt(s, i, "/*/");
    } else {
      var body := s[i + 2..end];
      f := Comment(body);
      if body != "" && body[0] == '/' {
        CharsAt(s, i + 1, "*/");
      }
      forall k | 0 < k < |body| ensures !(body[k - 1] == '*' && body[k] == '/') {
        if body[k - 1] == '*' && body[k] == '/' {
          CharsAt(s, i + 1 + k, "*/");
          assert false;
        }
      }
      AtSlice(s, i + 2, end);
      AtAppend(s, i, "/*", body);
      AtAppend(s, i, "/*" + body, "*/");
    }
  }

  lemma CharsAt(s: string, i: nat, w: string)
    requires i + |w| <= |s| && forall k :: 0 <= k < |w| ==> s[i + k] == w[k]
    ensures At(s, i, w)
  {
  }

  lemma LineIs(c: Chars, s: string, i: nat, end: nat) returns (f: Filler)
    requires At(s, i, "//") && i < end && At(s, end, "\n") && forall k :: i + 1 <= k < end ==> !At(s, k, "\n")
    ensures GoodFiller(c, f) && At(s, i, FillerText(f)) && i + |FillerText(f)| == end + 1
  {
    hide At;
    AtChar(s, i, "//", 1);
    AtChar(s, end, "\n", 0);
    var body := s[i + 2..end];
    f := LineComment(body);
    forall k | 0 <= k < |body| ensures body[k] != '\n' {
      if body[k] == '\n' {
        CharsAt(s, i + 2 + k, "\n");
        assert false;
      }
    }
    AtSlice(s, i + 2, end);
    AtAppend(s, i, "//", body);
    AtAppend(s, i, "//" + body, "\n");
  }

  /** Gaps that stand at a place. */
  predicate GapAt(c: Chars, s: string, i: nat, g: Gap) {
    GoodGap(c, g) && At(s, i, GapText(g))
  }

  lemma GapMore(c: Chars, s: string, i: nat, f: Filler, g: Gap)
    requires GoodFiller(c, f) && At(s, i, FillerText(f)) && GapAt(c, s, i + |FillerText(f)|, g)
    ensures GapAt(c, s, i, [f] + g) && |GapText([f] + g)| == |FillerText(f)| + |GapText(g)|
  {
    hide At, FillerText, GoodFiller;
    assert ([f] + g)[1..] == g;
    AtAppend(s, i, FillerText(f), GapText(g));
  }

  lemma NoGap(c: Chars, s: string, i: nat)
    requires i <= |s|
    ensures GapAt(c, s, i, []) && GapText([]) == ""
  {
  }

  /** What is skipped is a gap, and then comes the next token, or a comment that is not closed. */
  lemma {:induction false} SkippedGap(c: Chars, s: string, i: nat) returns (g: Gap)
    requires i <= |s|
    ensures GapAt(c, s, i, g)
    ensures var r, end := SkipFrom(c.space, s, i), i + |GapText(g)|;
            && (r.Upto? ==> r.end == end <= |s| && Solid(c, s, end))
            && (r.Endless? ==> OpenComment(s, end)) && (r.OutOfRange? ==> OpenLine(s, end))
    decreases |s| - i
  {
    hide SkipFrom, Find, At, GapText, GapAt, FillerText, GoodFiller;
    SkipStep(c.space, s, i);
    NoGap(c, s, i);
    g := [];
    if i < |s| && c.space(s[i]) {
      var rest := SkippedGap(c, s, i + 1);
      BlankIs(c, s, i);
      GapMore(c, s, i, Blank(s[i]), rest);
      g := [Blank(s[i])] + rest;
    } else if At(s, i, "/*") {
      FoundFirst(s, i + 1, "*/");
      var end := Find(s, i + 1, "*/");
      if end.Some? {
        var f := CommentIs(c, s, i, end.value);
        var rest := SkippedGap(c, s, end.value + 2);
        GapMore(c, s, i, f, rest);
        g := [f] + rest;
      }
    } else if At(s, i, "//") {
      FoundFirst(s, i + 1, "\n");
      var end := Find(s, i + 1, "\n");
      if end.Some? {
        var f := LineIs(c, s, i, end.value);
        var rest := SkippedGap(c, s, end.value + 1);
        GapMore(c, s, i, f, rest);
        g := [f] + rest;
      }
    }
  }

  lemma BlankIs(c: Chars, s: string, i: nat)
    requires i < |s| && c.space(s[i])
    ensures GoodFiller(c, Blank(s[i])) && At(s, i, FillerText(Blank(s[i]))) && |FillerText(Blank(s[i]))| == 1
  {
  }

  lemma OpenNotFound(s: string, i: nat, w: string)
    requires i < |s| && w != "" && forall k :: i < k ==> !At(s, k, w)
    ensures Find(s, i + 1, w) == None
  {
    hide At;
  }

  /**
    Exactly a gap is skipped up to where no other begins; it never ends if a comment is then not closed, and reads
    beyond the text if that has no end of line.
  */
  lemma SkipExactly(c: Chars, s: string, i: nat)
    requires Usual(c) && i <= |s|
    ensures forall end :: SkipFrom(c.space, s, i) == Upto(end) <==>
              Solid(c, s, end) && exists g :: GapAt(c, s, i, g) && end == i + |GapText(g)|
    ensures SkipFrom(c.space, s, i) == Endless <==>
            exists g :: GapAt(c, s, i, g) && OpenComment(s, i + |GapText(g)|)
    ensures SkipFrom(c.space, s, i) == OutOfRange <==>
            exists g :: GapAt(c, s, i, g) && OpenLine(s, i + |GapText(g)|)
  {
    hide SkipFrom, Usual, At, GapText, GoodGap, Solid, OpenComment, OpenLine;
    var skipped := SkippedGap(c, s, i);
    forall g, end | GapAt(c, s, i, g) && end == i + |GapText(g)| && Solid(c, s, end)
      ensures SkipFrom(c.space, s, i) == Upto(end)
    {
      GapSkipped(c, s, i, g, end);
    }
    forall g | GapAt(c, s, i, g)
      ensures OpenComment(s, i + |GapText(g)|) ==> SkipFrom(c.space, s, i) == Endless
      ensures OpenLine(s, i + |GapText(g)|) ==> SkipFrom(c.space, s, i) == OutOfRange
    {
      OpenSkipped(c, s, i, g);
    }
  }

  lemma OpenSkipped(c: Chars, s: string, i: nat, g: Gap)
    requires Usual(c) && GapAt(c, s, i, g)
    ensures OpenComment(s, i + |GapText(g)|) ==> SkipFrom(c.space, s, i) == Endless
    ensures OpenLine(s, i + |GapText(g)|) ==> SkipFrom(c.space, s, i) == OutOfRange
  {
    hide SkipFrom, At, GapText, GoodGap, Find;
    GapGoes(c, s, i, g);
    var end := i + |GapText(g)|;
    SkipStep(c.space, s, end);
    assert Mark('/');
    if OpenComment(s, end) {
      AtChar(s, end, "/*", 0);
      OpenNotFound(s, end, "*/");
    }
    if OpenLine(s, end) {
      AtChar(s, end, "//", 0);
      AtChar(s, end, "//", 1);
      NotAtChar(s, end, "/*", 1);
      OpenNotFound(s, end, "\n");
    }
  }
}
