/**
  Statements that are written down with blanks and closed comments between their tokens are read as these tokens.
*/
module LexerPrinted {
  import opened Wrappers
  import opened LexerText
  import opened LexerGrammar
  import opened LexerTokens
  import opened LexerForms
  import opened LexerStatements
  import opened LexerGaps

  // ---------- one statement ----------

  lemma ChosenIs(c: Chars, st: Stmt) returns (k: nat, words: seq<Word>)
    requires st.Chosen? && IsStatement(c, st)
    ensures Choices(st.word, k, words) && st.value in words
  {
    if st.word in BOOLEAN_WORDS {
      k, words := 7, TRUTHS;
    } else if st.word == "status" {
      k, words := 5, STATES;
    } else {
      k, words := 9, ORDERS;
    }
  }

  lemma OtherTokens(st: Stmt)
    ensures st.NotSupported? ==> StmtTokens(st) == [Kw("deviate")] + [Kw("not-supported")] + [EndToken(st.brace)]
    ensures st.Deviates? ==> StmtTokens(st) == [Kw("deviate")] + [Kw(st.how)] + [EndToken(true)]
    ensures st.Close? ==> StmtTokens(st) == [Kw("}")]
    ensures st.NotSupported? ==> EndToken(st.brace) == EndToken(true) || EndToken(st.brace) == EndToken(false)
  {
  }

  /** The lexer takes just the tokens of the statement. */
  lemma StatementRead(c: Chars, s: string, i: nat, ps: seq<Piece>, st: Stmt)
    requires Usual(c) && Stands(c, s, i, ps) && Are(ps, StmtTokens(st)) && IsStatement(c, st) && Clean(c, st)
    ensures i < EndOf(i, ps) <= |s| && StatementAt(c, s, i) == Read(ps, EndOf(i, ps))
  {
    hide Usual, Stands, StandsOne, Next, EndOf, Are, StmtTokens, Name, IsStr, CleanStr, NumberText, StatementAt;
    hide FORMS, Kw;
    hide BLOCK_WORDS, NAMED_WORDS, LONG_TEXT_WORDS, SHORT_TEXT_WORDS, VALUE_WORDS, PATH_WORDS, BOOLEAN_WORDS;
    hide COUNT_WORDS, BODY_WORDS, KEYWORDS, EndToken, NoNumber, IsExtra, CleanExtra, WouldJoin, PrefixedName, NoKeyword;
    OtherTokens(st);
    match st
    case Block(word, name) => BlockRead(c, s, i, ps, word, name);
    case PathBlock(word, path) => PathBlockRead(c, s, i, ps, word, path);
    case Body(word) => BodyRead(c, s, i, ps, word);
    case NotSupported(brace) => DeviateRead(c, s, i, ps, "not-supported", EndToken(brace));
    case Deviates(how) => DeviateRead(c, s, i, ps, how, EndToken(true));
    case Named(word, name, brace) => NamedRead(c, s, i, ps, word, name, brace);
    case Chosen(word, value, brace) =>
      var k, words := ChosenIs(c, st);
      ChosenRead(c, s, i, ps, word, value, brace, k, words);
    case WithNumber(word, number, brace) => WithNumberRead(c, s, i, ps, word, number, brace);
    case WithCount(word, count, brace) => WithCountRead(c, s, i, ps, word, count, brace);
    case WithText(word, str, brace) =>
      if word in VALUE_WORDS {
        ValueTextRead(c, s, i, ps, word, str, brace);
      } else {
        WithTextRead(c, s, i, ps, word, str, brace);
      }
    case Close =>
      SingleToken(c, s, i, ps, Kw("}"));
      CloseRead(c, s, i, ps[0]);
    case Extension(name, extras, brace) => ExtensionRead(c, s, i, ps, name, extras, brace);
  }

  // ---------- several statements ----------

  predicate AllGood(c: Chars, sts: seq<Stmt>) {
    forall k :: 0 <= k < |sts| ==> IsStatement(c, sts[k]) && Clean(c, sts[k])
  }

  /** Every statement has fewer tokens than the ring has slots. */
  predicate AllShort(sts: seq<Stmt>, ring: nat) {
    forall k :: 0 <= k < |sts| ==> |StmtTokens(sts[k])| < ring
  }

  lemma {:induction false} StatementsRead(c: Chars, s: string, i: nat, ps: seq<Piece>, sts: seq<Stmt>, ring: nat)
    requires Usual(c) && Stands(c, s, i, ps) && Are(ps, AllTokens(sts)) && AllGood(c, sts)
    ensures i <= EndOf(i, ps) <= |s| && TextFrom(c, s, i) == Behind(ps, TextFrom(c, s, EndOf(i, ps)))
    ensures AllShort(sts, ring) ==> (FitsFrom(c, s, i, ring) <==> FitsFrom(c, s, EndOf(i, ps), ring))
    decreases |sts|
  {
    hide Usual, Stands, StandsOne, Next, Are, StmtTokens, StatementAt, IsStatement, Clean, EndOf;
    StandsEnd(c, s, i, ps);
    if sts == [] {
      NoPieces(ps);
      EmptyEnd(i);
      BehindBoth([], [], TextFrom(c, s, i));
    } else {
      AreBoth(ps, StmtTokens(sts[0]), AllTokens(sts[1..]));
      var n := |StmtTokens(sts[0])|;
      var mid := EndOf(i, ps[..n]);
      StandsBoth(c, s, i, ps[..n], ps[n..]);
      StatementRead(c, s, i, ps[..n], sts[0]);
      StatementsRead(c, s, mid, ps[n..], sts[1..], ring);
      BehindBoth(ps[..n], ps[n..], TextFrom(c, s, EndOf(mid, ps[n..])));
      PieceCount(ps[..n], StmtTokens(sts[0]));
    }
  }

  lemma PieceCount(ps: seq<Piece>, toks: seq<Token>)
    requires Are(ps, toks)
    ensures |ps| == |toks|
  {
  }

  // ---------- tokens with gaps behind them ----------

  /** Each token with the gap behind it. */
  function PiecesOf(toks: seq<Token>, gaps: seq<Gap>): seq<Piece>
    requires |gaps| == |toks|
  {
    if toks == [] then [] else [Piece(toks[0], GapText(gaps[0]))] + PiecesOf(toks[1..], gaps[1..])
  }

  /** It is begun neither by a blank nor by what begins a comment. */
  predicate SolidToken(c: Chars, t: Token) {
    && t.val != "" && !c.space(t.val[0])
    && (t.val[0] == '/' ==> t.typ.StringToken? && !StartsComment(t.val))
  }

  predicate AllSolid(c: Chars, toks: seq<Token>) {
    forall k :: 0 <= k < |toks| ==> SolidToken(c, toks[k])
  }

  lemma TokenSolid(c: Chars, s: string, i: nat, t: Token)
    requires Usual(c) && At(s, i, t.val) && SolidToken(c, t)
    requires i + |t.val| < |s| ==> MayFollow(c, t, s[i + |t.val|])
    ensures Solid(c, s, i)
  {
    AtChar(s, i, t.val, 0);
    if t.val[0] != '/' {
      NotAtChar(s, i, "/*", 0);
      NotAtChar(s, i, "//", 0);
    } else {
      if |t.val| > 1 {
        AtChar(s, i, t.val, 1);
      } else {
        assert Mark('/') && Mark('*');
      }
      NotAtChar(s, i, "/*", 1);
      NotAtChar(s, i, "//", 1);
    }
  }

  /** Nothing behind a token can be taken for more of it. */
  lemma GapFollows(c: Chars, s: string, m: nat, t: Token, g: Gap, next: Option<Token>)
    requires Usual(c) && Apart(c, t, g, next) && At(s, m, GapText(g))
    requires g == [] && next.Some? ==> At(s, m, next.value.val)
    requires g == [] && next.None? && m < |s| ==> MayFollow(c, t, s[m])
    ensures m < |s| ==> MayFollow(c, t, s[m])
  {
    if g != [] {
      PlacedBoth(s, m, FillerText(g[0]), GapText(g[1..]));
      AtChar(s, m, FillerText(g[0]), 0);
      assert GoodFiller(c, g[0]);
      assert Mark('/');
    } else if next.Some? {
      AtChar(s, m, next.value.val, 0);
    }
  }

  lemma SpacedRest(c: Chars, toks: seq<Token>, gaps: seq<Gap>)
    requires |gaps| == |toks| > 0 && Spaced(c, toks, gaps)
    ensures Apart(c, toks[0], gaps[0], After(toks, 0))
    ensures Spaced(c, toks[1..], gaps[1..])
  {
    hide Apart;
    var rest, others := toks[1..], gaps[1..];
    forall k | 0 <= k < |rest| ensures Apart(c, rest[k], others[k], After(rest, k)) {
      assert rest[k] == toks[k + 1] && others[k] == gaps[k + 1] && After(rest, k) == After(toks, k + 1);
    }
  }

  lemma PrintSplit(s: string, i: nat, toks: seq<Token>, gaps: seq<Gap>)
    requires |gaps| == |toks| > 0 && At(s, i, Print(toks, gaps))
    ensures var m, n := i + |toks[0].val|, i + |toks[0].val| + |GapText(gaps[0])|;
            && At(s, i, toks[0].val) && At(s, m, GapText(gaps[0])) && At(s, n, Print(toks[1..], gaps[1..]))
            && n + |Print(toks[1..], gaps[1..])| == i + |Print(toks, gaps)|
  {
    hide At, GapText;
    PlacedThree(s, i, toks[0].val, GapText(gaps[0]), Print(toks[1..], gaps[1..]));
  }

  lemma FirstPlaced(s: string, i: nat, toks: seq<Token>, gaps: seq<Gap>)
    requires |gaps| == |toks| && At(s, i, Print(toks, gaps))
    ensures toks != [] ==> At(s, i, toks[0].val)
  {
    hide At;
    if toks != [] {
      PrintSplit(s, i, toks, gaps);
    }
  }

  lemma PieceStands(c: Chars, s: string, i: nat, p: Piece, m: nat, n: nat)
    requires p.token.val != "" && m == i + |p.token.val| && n == m + |p.skipped|
    requires At(s, i, p.token.val) && At(s, m, p.skipped)
    requires m <= |s| && SkipFrom(c.space, s, m) == Upto(n)
    requires m < |s| ==> MayFollow(c, p.token, s[m])
    ensures StandsOne(c, s, i, p) && Next(i, p) == n
  {
    PlacedIs(s, i, p.token.val, m);
    PlacedIs(s, m, p.skipped, n);
    hide SkipFrom, MayFollow, At;
  }

  lemma PlacedIs(s: string, i: nat, t: string, end: nat)
    requires At(s, i, t) && end == i + |t|
    ensures end <= |s| && s[i..end] == t
  {
  }

  /** What follows the tokens at `end` is no blank or comment, and cannot be taken for more of the last one. */
  predicate Continues(c: Chars, s: string, end: nat, toks: seq<Token>, gaps: seq<Gap>)
    requires |gaps| == |toks|
  {
    && Solid(c, s, end)
    && (end < |s| && toks != [] && gaps[|gaps| - 1] == [] ==> MayFollow(c, toks[|toks| - 1], s[end]))
  }

  /** The printed tokens stand one behind the other. */
  lemma {:induction false} PrintStands(c: Chars, s: string, i: nat, toks: seq<Token>, gaps: seq<Gap>, end: nat)
    requires Usual(c) && |gaps| == |toks| && At(s, i, Print(toks, gaps)) && i + |Print(toks, gaps)| == end
    requires Spaced(c, toks, gaps) && AllSolid(c, toks) && Continues(c, s, end, toks, gaps)
    ensures Stands(c, s, i, PiecesOf(toks, gaps)) && EndOf(i, PiecesOf(toks, gaps)) == end && Solid(c, s, i)
    decreases |toks|
  {
    hide Usual, At, Print, Spaced, SolidToken, GapText, SkipFrom, MayFollow, Solid, StandsOne, Next, Apart;
    if toks == [] {
      NothingPrinted(s, i, gaps, end);
    } else {
      var p := Piece(toks[0], GapText(gaps[0]));
      var m := i + |p.token.val|;
      var n := m + |p.skipped|;
      PrintSplit(s, i, toks, gaps);
      SpacedRest(c, toks, gaps);
      PrintStands(c, s, n, toks[1..], gaps[1..], end);
      FirstPlaced(s, n, toks[1..], gaps[1..]);
      assert SolidToken(c, toks[0]);
      LastPrinted(s, n, toks[1..], gaps[1..], end);
      PrintStep(c, s, i, p, n, gaps[0], After(toks, 0));
      assert PiecesOf(toks, gaps)[1..] == PiecesOf(toks[1..], gaps[1..]);
    }
  }

  lemma NothingPrinted(s: string, i: nat, gaps: seq<Gap>, end: nat)
    requires gaps == [] && At(s, i, Print([], gaps)) && i + |Print([], gaps)| == end
    ensures i == end <= |s|
  {
  }

  lemma LastPrinted(s: string, i: nat, toks: seq<Token>, gaps: seq<Gap>, end: nat)
    requires |gaps| == |toks| && At(s, i, Print(toks, gaps)) && i + |Print(toks, gaps)| == end
    ensures toks == [] ==> i == end
  {
  }

  lemma PrintStep(c: Chars, s: string, i: nat, p: Piece, n: nat, g: Gap, next: Option<Token>)
    requires Usual(c) && n == i + |p.token.val| + |p.skipped| && p.skipped == GapText(g)
    requires At(s, i, p.token.val) && At(s, i + |p.token.val|, p.skipped) && Solid(c, s, n)
    requires SolidToken(c, p.token) && Apart(c, p.token, g, next)
    requires if next.Some? then At(s, n, next.value.val)
             else n <= |s| && (g == [] && n < |s| ==> MayFollow(c, p.token, s[n]))
    ensures StandsOne(c, s, i, p) && Next(i, p) == n && Solid(c, s, i)
  {
    hide Usual, At, MayFollow, Solid, StandsOne, Next, SkipFrom;
    var m := i + |p.token.val|;
    PlacedFits(s, i, p.token.val);
    GapFollows(c, s, m, p.token, g, next);
    TokenSolid(c, s, i, p.token);
    GapSkipped(c, s, m, g, n);
    PieceStands(c, s, i, p, m, n);
  }

  lemma {:induction false} PiecesAre(toks: seq<Token>, gaps: seq<Gap>)
    requires |gaps| == |toks|
    ensures Are(PiecesOf(toks, gaps), toks)
  {
    if toks != [] {
      PiecesAre(toks[1..], gaps[1..]);
    }
  }

  // ---------- the tokens of statements are solid ----------

  lemma SolidBoth(c: Chars, a: seq<Token>, b: seq<Token>)
    requires AllSolid(c, a) && AllSolid(c, b)
    ensures AllSolid(c, a + b)
  {
    hide SolidToken;
  }

  lemma KeywordSolid(c: Chars, w: string)
    requires Usual(c) && (Lettered(w) || w == "{" || w == "}" || w == ";" || w == "+")
    ensures AllSolid(c, [Kw(w)])
  {
    assert w == "}" ==> Mark(w[0]);
  }

  lemma NameSolid(c: Chars, t: Token)
    requires Usual(c) && (Name(c, t.val) || NumberText(c, t.val, true))
    ensures AllSolid(c, [t])
  {
    assert Mark('/') && Mark('+');
    if Name(c, t.val) {
      assert NameChar(c, t.val[0]);
    }
  }

  lemma {:induction false} StrSolid(c: Chars, str: Str)
    requires Usual(c) && IsStr(str) && CleanStr(c, str)
    ensures AllSolid(c, StrTokens(str))
  {
    hide Within;
    assert Mark('\"') && Mark('\'');
    if str.Joined? {
      KeywordSolid(c, "+");
      StrSolid(c, str.others);
    }
  }

  lemma {:induction false} ExtrasSolid(c: Chars, es: seq<Extra>)
    requires Usual(c) && Unjoined(c, es)
    ensures AllSolid(c, ExtrasTokens(es))
  {
    hide Usual, SolidToken;
    if es != [] {
      UnjoinedRest(c, es);
      match es[0] {
        case ExtraNumber(number) => NameSolid(c, Token(NumberToken, number));
        case ExtraText(str) => StrSolid(c, str);
      }
      ExtrasSolid(c, es[1..]);
      SolidBoth(c, ExtraTokens(es[0]), ExtrasTokens(es[1..]));
    }
  }

  lemma EndSolid(c: Chars, brace: bool)
    requires Usual(c)
    ensures AllSolid(c, [EndToken(brace)])
  {
    KeywordSolid(c, if brace then "{" else ";");
  }

  lemma WordSolid(c: Chars, w: string)
    requires Usual(c)
    requires w in BLOCK_WORDS || w in NAMED_WORDS || w in LONG_TEXT_WORDS || w in SHORT_TEXT_WORDS || w in VALUE_WORDS
             || w in PATH_WORDS || w in BOOLEAN_WORDS || w in COUNT_WORDS || w in BODY_WORDS
             || w == "deviate" || w == "status" || w == "ordered-by"
    ensures AllSolid(c, [Kw(w)])
  {
    hide *;
    WordsAreLettered(w);
    KeywordSolid(c, w);
  }

  lemma ValueIn(w: string)
    requires w in ["true", "false"] || w in ["current", "deprecated", "obsolete"] || w in ["system", "user"]
             || w in ["add", "replace", "delete"] || w == "not-supported" || w == "unbounded"
    ensures Lettered(w)
  {
  }

  lemma MiddleSolid(c: Chars, a: seq<Token>, mid: seq<Token>, b: seq<Token>)
    requires AllSolid(c, a) && AllSolid(c, mid) && AllSolid(c, b)
    ensures AllSolid(c, a + mid + b)
  {
    hide AllSolid;
    SolidBoth(c, a, mid);
    SolidBoth(c, a + mid, b);
  }

  lemma StatementSolid(c: Chars, st: Stmt)
    requires Usual(c) && IsStatement(c, st) && Clean(c, st)
    ensures AllSolid(c, StmtTokens(st))
  {
    hide Usual, Name, IsStr, CleanStr, NumberText, AllSolid, Kw, EndToken, Lettered;
    hide BLOCK_WORDS, NAMED_WORDS, LONG_TEXT_WORDS, SHORT_TEXT_WORDS, VALUE_WORDS, PATH_WORDS, BOOLEAN_WORDS;
    hide COUNT_WORDS, BODY_WORDS, KEYWORDS, NoNumber, IsExtra, CleanExtra, WouldJoin, NoKeyword;
    EndSolid(c, true);
    EndSolid(c, false);
    OtherTokens(st);
    TokensAre(st);
    match st
    case Block(word, name) =>
      WordSolid(c, word);
      NameSolid(c, Token(IdentToken, name));
      KeywordSolid(c, "{");
      MiddleSolid(c, [Kw(word)], [Token(IdentToken, name)], [Kw("{")]);
    case PathBlock(word, path) =>
      WordSolid(c, word);
      StrSolid(c, path);
      KeywordSolid(c, "{");
      MiddleSolid(c, [Kw(word)], StrTokens(path), [Kw("{")]);
    case Body(word) =>
      WordSolid(c, word);
      KeywordSolid(c, "{");
      SolidBoth(c, [Kw(word)], [Kw("{")]);
      assert StmtTokens(st) == [Kw(word)] + [Kw("{")];
    case NotSupported(brace) =>
      WordSolid(c, "deviate");
      ValueIn("not-supported");
      KeywordSolid(c, "not-supported");
      MiddleSolid(c, [Kw("deviate")], [Kw("not-supported")], [EndToken(brace)]);
    case Deviates(how) =>
      WordSolid(c, "deviate");
      ValueIn(how);
      KeywordSolid(c, how);
      MiddleSolid(c, [Kw("deviate")], [Kw(how)], [EndToken(true)]);
    case Named(word, name, brace) =>
      WordSolid(c, word);
      NameSolid(c, Token(IdentToken, name));
      MiddleSolid(c, [Kw(word)], [Token(IdentToken, name)], [EndToken(brace)]);
    case Chosen(word, value, brace) =>
      WordSolid(c, word);
      ValueIn(value);
      KeywordSolid(c, value);
      MiddleSolid(c, [Kw(word)], [Kw(value)], [EndToken(brace)]);
    case WithNumber(word, number, brace) =>
      WordSolid(c, word);
      NameSolid(c, Token(NumberToken, number));
      MiddleSolid(c, [Kw(word)], [Token(NumberToken, number)], [EndToken(brace)]);
    case WithCount(word, count, brace) =>
      WordSolid(c, word);
      CountSolid(c, count);
      MiddleSolid(c, [Kw(word)], [if count == "unbounded" then Kw(count) else Token(NumberToken, count)],
                  [EndToken(brace)]);
    case WithText(word, str, brace) =>
      WordSolid(c, word);
      StrSolid(c, str);
      MiddleSolid(c, [Kw(word)], StrTokens(str), [EndToken(brace)]);
    case Close => KeywordSolid(c, "}");
    case Extension(name, extras, brace) =>
      NameSolid(c, Token(ExtensionToken, name));
      ExtrasSolid(c, extras);
      MiddleSolid(c, [Token(ExtensionToken, name)], ExtrasTokens(extras), [EndToken(brace)]);
  }

  lemma CountSolid(c: Chars, count: string)
    requires Usual(c) && (count == "unbounded" || NumberText(c, count, false))
    ensures AllSolid(c, [if count == "unbounded" then Kw(count) else Token(NumberToken, count)])
  {
    if count == "unbounded" {
      KeywordSolid(c, count);
    } else {
      NameSolid(c, Token(NumberToken, count));
    }
  }

  lemma {:induction false} StatementsSolid(c: Chars, sts: seq<Stmt>)
    requires Usual(c) && AllGood(c, sts)
    ensures AllSolid(c, AllTokens(sts))
  {
    hide Usual, AllSolid, StmtTokens, IsStatement, Clean;
    if sts == [] {
      NothingSolid(c);
    } else {
      StatementSolid(c, sts[0]);
      StatementsSolid(c, sts[1..]);
      SolidBoth(c, StmtTokens(sts[0]), AllTokens(sts[1..]));
    }
  }

  lemma NothingSolid(c: Chars)
    ensures AllSolid(c, [])
  {
  }

  // ---------- the whole text ----------

  /** The text of the statements, with gaps before and behind their tokens. */
  predicate IsPrint(c: Chars, s: string, sts: seq<Stmt>, lead: Gap, gaps: seq<Gap>) {
    var toks := AllTokens(sts);
    |gaps| == |toks| && GoodGap(c, lead) && Spaced(c, toks, gaps) && s == GapText(lead) + Print(toks, gaps)
  }

  /**
    Statements that are printed with any gaps are read as these statements: each token with its type, and the gap behind
    it is what is skipped.
  */
  lemma PrintedIsRead(c: Chars, s: string, sts: seq<Stmt>, lead: Gap, gaps: seq<Gap>, ring: nat)
    requires Usual(c) && AllGood(c, sts) && IsPrint(c, s, sts, lead, gaps)
    ensures Text(c, s) == Read(PiecesOf(AllTokens(sts), gaps), |s|)
    ensures Are(PiecesOf(AllTokens(sts), gaps), AllTokens(sts))
    ensures AllShort(sts, ring) ==> Fits(c, s, ring)
  {
    hide Usual, AllGood, AllTokens, Print, PiecesOf, GoodGap, Spaced, GapText, SkipFrom, TextFrom, FitsFrom, Solid;
    hide Stands, EndOf, Are, AllShort, At, StatementAt;
    var toks, i := AllTokens(sts), |GapText(lead)|;
    var ps := PiecesOf(toks, gaps);
    TextPlaced(s, GapText(lead), Print(toks, gaps));
    StatementsSolid(c, sts);
    EndIsSolid(c, s);
    PrintStands(c, s, i, toks, gaps, |s|);
    PiecesAre(toks, gaps);
    GapSkipped(c, s, 0, lead, i);
    StatementsRead(c, s, i, ps, sts, ring);
    AtTheEnd(c, s, ring);
    assert ps + [] == ps;
  }

  lemma EndIsSolid(c: Chars, s: string)
    ensures Solid(c, s, |s|)
  {
  }

  lemma AtTheEnd(c: Chars, s: string, ring: nat)
    ensures TextFrom(c, s, |s|) == Read([], |s|) && FitsFrom(c, s, |s|, ring)
  {
  }

  lemma TextPlaced(s: string, a: string, b: string)
    requires s == a + b
    ensures At(s, 0, a) && At(s, |a|, b)
  {
  }

  /** The text of the statements, with some gaps. */
  ghost predicate Printed(c: Chars, s: string, sts: seq<Stmt>) {
    AllGood(c, sts) && exists lead, gaps :: IsPrint(c, s, sts, lead, gaps)
  }

  // ---------- an example ----------

  const ASCII := Chars(
    x => x == ' ' || '\t' <= x <= '\r',
    x => 'a' <= x <= 'z' || 'A' <= x <= 'Z',
    x => '0' <= x <= '9')

  lemma AsciiIsUsual()
    ensures Usual(ASCII)
  {
  }

  const DESCRIPTION := WithText("description", InQuotes("\"a b\""), false)

  lemma PrintThree(t: Token, u: Token, v: Token, g: Gap)
    ensures Print([t, u, v], [g, [], []]) == t.val + GapText(g) + u.val + v.val
  {
    assert [t, u, v][1..] == [u, v] && [u, v][1..] == [v];
    var two: seq<Gap> := [[], []];
    assert [g, [], []][1..] == two && two[1..] == [[]];
    assert Print([v], [[]]) == v.val;
  }

  lemma DescriptionIsGood()
    ensures IsStatement(ASCII, DESCRIPTION) && Clean(ASCII, DESCRIPTION)
    ensures AllTokens([DESCRIPTION]) == [Kw("description"), Token(StringToken, "\"a b\""), Kw(";")]
  {
    assert "description" in LONG_TEXT_WORDS && "description" !in VALUE_WORDS;
    assert "\"a b\""[1..4] == "a b" && "a b"[1..] == " b" && " b"[1..] == "b";
  }

  lemma DescriptionIsPrinted(toks: seq<Token>, gaps: seq<Gap>)
    requires toks == [Kw("description"), Token(StringToken, "\"a b\""), Kw(";")] && gaps == [[Blank(' ')], [], []]
    ensures Spaced(ASCII, toks, gaps) && GapText([]) + Print(toks, gaps) == "description \"a b\";"
  {
    PrintThree(toks[0], toks[1], toks[2], [Blank(' ')]);
    assert GapText([Blank(' ')]) == " ";
  }

  /** One statement, with a blank behind its keyword. */
  lemma DescriptionIsRead()
    ensures var l := Text(ASCII, "description \"a b\";");
            l.Read? && Are(l.pieces, [Kw("description"), Token(StringToken, "\"a b\""), Kw(";")])
  {
    AsciiIsUsual();
    DescriptionIsGood();
    hide AllTokens, Usual, Text, PiecesOf, Are, IsStatement, Clean, Spaced, Print, GapText, Kw, ASCII, DESCRIPTION;
    var toks := [Kw("description"), Token(StringToken, "\"a b\""), Kw(";")];
    var gaps: seq<Gap> := [[Blank(' ')], [], []];
    DescriptionIsPrinted(toks, gaps);
    PrintedIsRead(ASCII, "description \"a b\";", [DESCRIPTION], [], gaps, 64);
  }
}
