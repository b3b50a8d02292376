/**
  What is read is always a sequence of statements, and a keyword that is not followed by its kind of argument is an
  error.
*/
module LexerReading {
  import opened Wrappers
  import opened LexerText
  import opened LexerGrammar
  import opened LexerTokens
  import opened LexerForms
  import opened LexerStatements
  import opened LexerPrinted
  import opened LexerGaps

  // ---------- what single arguments are ----------

  lemma WordIs(c: Chars, s: string, i: nat, words: seq<Word>) returns (w: Word)
    requires i <= |s| && OneOfAt(c, s, i, words).Read?
    ensures w in words && Are(OneOfAt(c, s, i, words).pieces, [Kw(w)]) && At(s, i, w)
    decreases |words|
  {
    hide At, KeywordAt;
    if At(s, i, words[0]) {
      w := words[0];
      KeywordIs(c, s, i, w);
    } else {
      w := WordIs(c, s, i, words[1..]);
    }
  }

  lemma KeywordIs(c: Chars, s: string, i: nat, w: Word)
    requires i <= |s| && KeywordAt(c, s, i, w).Read?
    ensures Are(KeywordAt(c, s, i, w).pieces, [Kw(w)])
  {
    hide SkipFrom;
  }

  lemma KeywordMissed(c: Chars, s: string, i: nat, w: Word)
    requires i <= |s| && KeywordAt(c, s, i, w).Wrong?
    ensures !At(s, i, w)
  {
    hide SkipFrom;
  }

  lemma NameIs(c: Chars, s: string, i: nat, prefixed: bool) returns (name: string)
    requires i <= |s| && IdentAt(c, s, i, prefixed).Read?
    ensures Name(c, name) && (prefixed ==> PrefixedName(c, name))
    ensures Are(IdentAt(c, s, i, prefixed).pieces, [Token(if prefixed then ExtensionToken else IdentToken, name)])
  {
    hide SkipFrom, IdentEnd, IsIdent, NameChar;
    name := s[i..IdentEnd(c, s, i)];
    forall k | 0 <= k < |name| ensures NameChar(c, name[k]) {
      IdentIs(c, s[i + k]);
    }
  }

  lemma {:induction false} NumberBack(digit: char -> bool, s: string, i: nat, begun: bool, decimal: bool)
    requires i <= |s|
    ensures var end := NumberEnd(digit, s, i, begun, decimal);
            forall k :: i <= k < end ==> NumberChar(digit, s[k], decimal, begun || k > i)
    decreases |s| - i
  {
    if NumberEnd(digit, s, i, begun, decimal) > i {
      NumberBack(digit, s, i + 1, true, decimal);
    }
  }

  lemma NumberIs(c: Chars, s: string, i: nat, decimal: bool) returns (number: string)
    requires i <= |s| && NumberAt(c, s, i, decimal).Read?
    ensures NumberText(c, number, decimal) && At(s, i, number)
    ensures Are(NumberAt(c, s, i, decimal).pieces, [Token(NumberToken, number)])
  {
    hide SkipFrom, NumberEnd;
    NumberBack(c.digit, s, i, false, decimal);
    var end := NumberEnd(c.digit, s, i, false, decimal);
    number := s[i..end];
    forall k | 0 <= k < |number| ensures NumberChar(c.digit, number[k], decimal, k > 0) {
      assert number[k] == s[i + k];
    }
  }

  lemma {:induction false} QuotedBack(space: char -> bool, s: string, i: nat, quote: char)
    requires i <= |s| && StringEnd(space, s, i, quote, true).Some? && (quote == '\"' || quote == '\'')
    ensures var end := StringEnd(space, s, i, quote, true).value;
            i < end <= |s| && s[end - 1] == quote && Within(quote, s[i..end - 1])
    decreases |s| - i
  {
    var end := StringEnd(space, s, i, quote, true).value;
    if s[i] == '\\' && quote == '\"' {
      if i + 1 < |s| {
        QuotedBack(space, s, i + 2, quote);
        assert s[i..end - 1][2..] == s[i + 2..end - 1];
      }
    } else if s[i] != quote {
      QuotedBack(space, s, i + 1, quote);
      assert s[i..end - 1][1..] == s[i + 1..end - 1];
    }
  }

  lemma FirstIs(c: Chars, s: string, i: nat)
    requires i <= |s| && FirstString(c, s, i).Some?
    ensures var end := FirstString(c, s, i).value;
            i <= end <= |s| && if Quoted(s, i) then QuotedText(s[i..end]) else !IsQuoted(s[i..end])
  {
    hide StringEnd, Within;
    var end := FirstString(c, s, i).value;
    if Quoted(s, i) {
      QuotedBack(c.space, s, i + 1, s[i]);
      assert s[i..end][1..|s[i..end]| - 1] == s[i + 1..end - 1];
    }
  }

  lemma {:induction false} StringIs(c: Chars, s: string, i: nat) returns (str: Str)
    requires i <= |s| && StringAt(c, s, i).Read?
    ensures IsStr(str) && Are(StringAt(c, s, i).pieces, StrTokens(str))
    decreases |s| - i
  {
    hide SkipFrom, FirstString, QuotedText, KeywordAt, StringAt, Are;
    StringStep(c, s, i);
    FirstIs(c, s, i);
    var end := FirstString(c, s, i).value;
    var text := s[i..end];
    var first := FirstAt(c, s, i);
    SingleIs(first.pieces, Token(StringToken, text));
    var plus := KeywordAt(c, s, first.end, "+");
    if !Quoted(s, i) {
      str := Bare(text);
    } else if plus.Wrong? {
      str := InQuotes(text);
    } else {
      var others := StringIs(c, s, plus.end);
      str := Joined(text, others);
      KeywordIs(c, s, first.end, "+");
      var rest := StringAt(c, s, plus.end).pieces;
      AreJoined(first.pieces, [Token(StringToken, text)], plus.pieces, [Kw("+")]);
      AreJoined(first.pieces + plus.pieces, [Token(StringToken, text)] + [Kw("+")], rest, StrTokens(others));
      assert first.pieces + (plus.pieces + rest) == first.pieces + plus.pieces + rest;
      assert StrTokens(str) == [Token(StringToken, text)] + [Kw("+")] + StrTokens(others);
    }
  }

  lemma SingleIs(ps: seq<Piece>, t: Token)
    requires |ps| == 1 && ps[0].token == t
    ensures Are(ps, [t])
  {
  }

  lemma AreJoined(a: seq<Piece>, ta: seq<Token>, b: seq<Piece>, tb: seq<Token>)
    requires Are(a, ta) && Are(b, tb)
    ensures Are(a + b, ta + tb)
  {
  }

  lemma EndIs(c: Chars, s: string, i: nat) returns (brace: bool)
    requires i <= |s| && ArgAt(c, s, i, End).Read?
    ensures Are(ArgAt(c, s, i, End).pieces, [EndToken(brace)])
  {
    hide OneOfAt;
    var w := WordIs(c, s, i, ENDS);
    brace := w == "{";
  }

  // ---------- which form a statement has ----------

  /** The form that was found, or none of them. */
  lemma {:induction false} WhichForm(c: Chars, s: string, i: nat, m: nat) returns (k: nat)
    requires i <= |s| && m <= |FORMS| && FormsAt(c, s, i, FORMS[m..]).Read?
    ensures m <= k <= |FORMS| && forall q :: m <= q < k ==> OneOfAt(c, s, i, FORMS[q].words).Wrong?
    ensures k == |FORMS| ==> FormsAt(c, s, i, FORMS[m..]) == ExtensionAt(c, s, i)
    ensures k < |FORMS| ==>
              var word := OneOfAt(c, s, i, FORMS[k].words);
              && word.Read? && ArgsAt(c, s, word.end, FORMS[k].args).Read?
              && FormsAt(c, s, i, FORMS[m..]).pieces == word.pieces + ArgsAt(c, s, word.end, FORMS[k].args).pieces
    decreases |FORMS| - m
  {
    hide FORMS, FormsAt, OneOfAt, ArgsAt, ExtensionAt;
    FormsStep(c, s, i, FORMS, m);
    k := m;
    if m < |FORMS| && OneOfAt(c, s, i, FORMS[m].words).Wrong? {
      k := WhichForm(c, s, i, m + 1);
    }
  }

  lemma TwoArgs(c: Chars, s: string, i: nat, a: Arg, b: Arg)
    requires i <= |s| && ArgsAt(c, s, i, [a, b]).Read?
    ensures var first := ArgAt(c, s, i, a);
            && first.Read? && ArgAt(c, s, first.end, b).Read?
            && ArgsAt(c, s, i, [a, b]).pieces == first.pieces + ArgAt(c, s, first.end, b).pieces
  {
    hide ArgAt;
    assert [a, b][1..] == [b];
    var first := ArgAt(c, s, i, a);
    if first.Read? {
      LastArg(c, s, first.end, b);
    }
  }

  lemma ThreeJoined(ps: seq<Piece>, w: seq<Piece>, t: Token, a: seq<Piece>, ta: seq<Token>, q: seq<Piece>, tq: Token)
    requires ps == w + (a + q) && Are(w, [t]) && Are(a, ta) && Are(q, [tq])
    ensures Are(ps, [t] + ta + [tq])
  {
    hide Are;
    AreJoined(w, [t], a, ta);
    AreJoined(w + a, [t] + ta, q, [tq]);
    assert ps == w + a + q;
  }

  // ---------- statements ----------

  lemma {:induction false} ExtrasAre(c: Chars, s: string, i: nat) returns (es: seq<Extra>, brace: bool)
    requires i <= |s| && WordsAt(c, s, i).Read?
    ensures Are(WordsAt(c, s, i).pieces, ExtrasTokens(es) + [EndToken(brace)])
    ensures forall k :: 0 <= k < |es| ==> IsExtra(c, es[k])
    decreases |s| - i
  {
    hide OneOfAt, ArgAt, Are, IsExtra, ExtraTokens, EndToken;
    WordsStep(c, s, i);
    if !OneOfAt(c, s, i, ENDS).Wrong? {
      OneIsEnd(c, s, i);
      brace := EndIs(c, s, i);
      es := [];
      assert ExtrasTokens([]) + [EndToken(brace)] == [EndToken(brace)];
    } else {
      var word := ArgAt(c, s, i, NumberOrString);
      var e := ExtraIs(c, s, i);
      var others, last := ExtrasAre(c, s, word.end);
      es, brace := [e] + others, last;
      AreJoined(word.pieces, ExtraTokens(e), WordsAt(c, s, word.end).pieces, ExtrasTokens(others) + [EndToken(brace)]);
      assert es[1..] == others;
      assert ExtrasTokens(es) + [EndToken(brace)] == ExtraTokens(e) + (ExtrasTokens(others) + [EndToken(brace)]);
    }
  }

  lemma OneIsEnd(c: Chars, s: string, i: nat)
    requires i <= |s|
    ensures ArgAt(c, s, i, End) == OneOfAt(c, s, i, ENDS)
  {
  }

  lemma ExtraIs(c: Chars, s: string, i: nat) returns (e: Extra)
    requires i <= |s| && ArgAt(c, s, i, NumberOrString).Read?
    ensures IsExtra(c, e) && Are(ArgAt(c, s, i, NumberOrString).pieces, ExtraTokens(e))
  {
    hide NumberAt, StringAt, Are, NumberText, IsStr;
    if NumberAt(c, s, i, true).Wrong? {
      var str := StringIs(c, s, i);
      e := ExtraText(str);
    } else {
      var number := NumberIs(c, s, i, true);
      e := ExtraNumber(number);
    }
  }

  lemma BraceIs(c: Chars, s: string, i: nat)
    requires i <= |s| && ArgAt(c, s, i, OpenBrace).Read?
    ensures Are(ArgAt(c, s, i, OpenBrace).pieces, [Kw("{")])
  {
    hide KeywordAt, Are;
    KeywordIs(c, s, i, "{");
  }

  lemma IdentArg(c: Chars, s: string, i: nat) returns (name: string)
    requires i <= |s| && ArgAt(c, s, i, AnIdent).Read?
    ensures Name(c, name) && Are(ArgAt(c, s, i, AnIdent).pieces, [Token(IdentToken, name)])
  {
    hide IdentAt, Are, Name, PrefixedName;
    name := NameIs(c, s, i, false);
  }

  lemma StrArg(c: Chars, s: string, i: nat) returns (str: Str)
    requires i <= |s| && ArgAt(c, s, i, AString).Read?
    ensures IsStr(str) && Are(ArgAt(c, s, i, AString).pieces, StrTokens(str))
  {
    hide StringAt, Are, IsStr;
    str := StringIs(c, s, i);
  }

  lemma ValueArg(c: Chars, s: string, i: nat, words: seq<Word>) returns (value: string)
    requires i <= |s| && ArgAt(c, s, i, OneOf(words)).Read?
    ensures value in words && Are(ArgAt(c, s, i, OneOf(words)).pieces, [Kw(value)])
  {
    hide OneOfAt, Are;
    value := WordIs(c, s, i, words);
  }

  lemma IntegerArg(c: Chars, s: string, i: nat) returns (count: string)
    requires i <= |s| && ArgAt(c, s, i, Integer).Read?
    ensures count == "unbounded" || NumberText(c, count, false)
    ensures Are(ArgAt(c, s, i, Integer).pieces,
                [if count == "unbounded" then Kw(count) else Token(NumberToken, count)])
  {
    hide KeywordAt, NumberAt, Are;
    if KeywordAt(c, s, i, "unbounded").Wrong? {
      count := NumberIs(c, s, i, false);
      KeywordMissed(c, s, i, "unbounded");
    } else {
      KeywordIs(c, s, i, "unbounded");
      count := "unbounded";
    }
  }

  lemma BlockIs(c: Chars, s: string, i: nat, ps: seq<Piece>, w: string, wp: seq<Piece>) returns (st: Stmt)
    requires i <= |s| && Are(wp, [Kw(w)]) && w in BLOCK_WORDS
    requires ArgsAt(c, s, i, [AnIdent, OpenBrace]).Read? && ps == wp + ArgsAt(c, s, i, [AnIdent, OpenBrace]).pieces
    ensures IsStatement(c, st) && Are(ps, StmtTokens(st))
  {
    hide ArgsAt, ArgAt, Are, Name, NumberText, IsStr, StrTokens;
    TwoArgs(c, s, i, AnIdent, OpenBrace);
    var first := ArgAt(c, s, i, AnIdent);
    var name := IdentArg(c, s, i);
    BraceIs(c, s, first.end);
    st := Block(w, name);
    TokensAre(st);
    ThreeJoined(ps, wp, Kw(w), first.pieces, [Token(IdentToken, name)], ArgAt(c, s, first.end, OpenBrace).pieces,
                Kw("{"));
  }

  lemma PathBlockIs(c: Chars, s: string, i: nat, ps: seq<Piece>, w: string, wp: seq<Piece>) returns (st: Stmt)
    requires i <= |s| && Are(wp, [Kw(w)]) && w in PATH_WORDS
    requires ArgsAt(c, s, i, [AString, OpenBrace]).Read? && ps == wp + ArgsAt(c, s, i, [AString, OpenBrace]).pieces
    ensures IsStatement(c, st) && Are(ps, StmtTokens(st))
  {
    hide ArgsAt, ArgAt, Are, Name, NumberText, IsStr, StrTokens;
    TwoArgs(c, s, i, AString, OpenBrace);
    var first := ArgAt(c, s, i, AString);
    var path := StrArg(c, s, i);
    BraceIs(c, s, first.end);
    st := PathBlock(w, path);
    TokensAre(st);
    ThreeJoined(ps, wp, Kw(w), first.pieces, StrTokens(path), ArgAt(c, s, first.end, OpenBrace).pieces, Kw("{"));
  }

  lemma NamedIs(c: Chars, s: string, i: nat, ps: seq<Piece>, w: string, wp: seq<Piece>) returns (st: Stmt)
    requires i <= |s| && Are(wp, [Kw(w)]) && w in NAMED_WORDS
    requires ArgsAt(c, s, i, [AnIdent, End]).Read? && ps == wp + ArgsAt(c, s, i, [AnIdent, End]).pieces
    ensures IsStatement(c, st) && Are(ps, StmtTokens(st))
  {
    hide ArgsAt, ArgAt, Are, Name, NumberText, IsStr, StrTokens;
    TwoArgs(c, s, i, AnIdent, End);
    var first := ArgAt(c, s, i, AnIdent);
    var name := IdentArg(c, s, i);
    var brace := EndIs(c, s, first.end);
    st := Named(w, name, brace);
    TokensAre(st);
    ThreeJoined(ps, wp, Kw(w), first.pieces, [Token(IdentToken, name)], ArgAt(c, s, first.end, End).pieces,
                EndToken(brace));
  }

  lemma TextIs(c: Chars, s: string, i: nat, ps: seq<Piece>, w: string, wp: seq<Piece>) returns (st: Stmt)
    requires i <= |s| && Are(wp, [Kw(w)]) && (w in LONG_TEXT_WORDS || w in SHORT_TEXT_WORDS)
    requires ArgsAt(c, s, i, [AString, End]).Read? && ps == wp + ArgsAt(c, s, i, [AString, End]).pieces
    ensures IsStatement(c, st) && Are(ps, StmtTokens(st))
  {
    hide ArgsAt, ArgAt, Are, Name, NumberText, IsStr, StrTokens;
    TwoArgs(c, s, i, AString, End);
    var first := ArgAt(c, s, i, AString);
    var str := StrArg(c, s, i);
    var brace := EndIs(c, s, first.end);
    st := WithText(w, str, brace);
    TokensAre(st);
    ThreeJoined(ps, wp, Kw(w), first.pieces, StrTokens(str), ArgAt(c, s, first.end, End).pieces, EndToken(brace));
  }

  lemma CountIs(c: Chars, s: string, i: nat, ps: seq<Piece>, w: string, wp: seq<Piece>) returns (st: Stmt)
    requires i <= |s| && Are(wp, [Kw(w)]) && w in COUNT_WORDS
    requires ArgsAt(c, s, i, [Integer, End]).Read? && ps == wp + ArgsAt(c, s, i, [Integer, End]).pieces
    ensures IsStatement(c, st) && Are(ps, StmtTokens(st))
  {
    hide ArgsAt, ArgAt, Are, Name, NumberText, IsStr, StrTokens;
    TwoArgs(c, s, i, Integer, End);
    var first := ArgAt(c, s, i, Integer);
    var count := IntegerArg(c, s, i);
    var brace := EndIs(c, s, first.end);
    st := WithCount(w, count, brace);
    TokensAre(st);
    ThreeJoined(ps, wp, Kw(w), first.pieces,
                [if count == "unbounded" then Kw(count) else Token(NumberToken, count)],
                ArgAt(c, s, first.end, End).pieces, EndToken(brace));
  }

  lemma ValueIs(c: Chars, s: string, i: nat, ps: seq<Piece>, w: string, wp: seq<Piece>) returns (st: Stmt)
    requires i <= |s| && Are(wp, [Kw(w)]) && w in VALUE_WORDS
    requires ArgsAt(c, s, i, [NumberOrString, End]).Read? && ps == wp + ArgsAt(c, s, i, [NumberOrString, End]).pieces
    ensures IsStatement(c, st) && Are(ps, StmtTokens(st))
  {
    hide ArgsAt, ArgAt, Are, NumberText, IsStr, StrTokens;
    TwoArgs(c, s, i, NumberOrString, End);
    var first := ArgAt(c, s, i, NumberOrString);
    var e := ExtraIs(c, s, i);
    var brace := EndIs(c, s, first.end);
    st := if e.ExtraNumber? then WithNumber(w, e.number, brace) else WithText(w, e.str, brace);
    TokensAre(st);
    ThreeJoined(ps, wp, Kw(w), first.pieces, ExtraTokens(e), ArgAt(c, s, first.end, End).pieces, EndToken(brace));
  }

  lemma ChoiceIs(c: Chars, s: string, i: nat, ps: seq<Piece>, w: string, wp: seq<Piece>, k: nat, words: seq<Word>)
    returns (st: Stmt)
    requires i <= |s| && Are(wp, [Kw(w)]) && Choices(w, k, words)
    requires ArgsAt(c, s, i, [OneOf(words), End]).Read? && ps == wp + ArgsAt(c, s, i, [OneOf(words), End]).pieces
    ensures IsStatement(c, st) && Are(ps, StmtTokens(st))
  {
    hide ArgsAt, ArgAt, Are;
    TwoArgs(c, s, i, OneOf(words), End);
    var first := ArgAt(c, s, i, OneOf(words));
    var value := ValueArg(c, s, i, words);
    var brace := EndIs(c, s, first.end);
    st := Chosen(w, value, brace);
    TokensAre(st);
    ThreeJoined(ps, wp, Kw(w), first.pieces, [Kw(value)], ArgAt(c, s, first.end, End).pieces, EndToken(brace));
  }

  lemma BodyIs(c: Chars, s: string, i: nat, ps: seq<Piece>, w: string, wp: seq<Piece>) returns (st: Stmt)
    requires i <= |s| && Are(wp, [Kw(w)]) && w in BODY_WORDS
    requires ArgsAt(c, s, i, [OpenBrace]).Read? && ps == wp + ArgsAt(c, s, i, [OpenBrace]).pieces
    ensures IsStatement(c, st) && Are(ps, StmtTokens(st))
  {
    hide ArgsAt, ArgAt, Are;
    LastArg(c, s, i, OpenBrace);
    BraceIs(c, s, i);
    st := Body(w);
    AreJoined(wp, [Kw(w)], ArgAt(c, s, i, OpenBrace).pieces, [Kw("{")]);
    assert StmtTokens(st) == [Kw(w)] + [Kw("{")];
  }

  lemma DeviateIs(c: Chars, s: string, i: nat, ps: seq<Piece>, wp: seq<Piece>) returns (st: Stmt)
    requires i <= |s| && Are(wp, [Kw("deviate")])
    requires ArgsAt(c, s, i, [Deviate]).Read? && ps == wp + ArgsAt(c, s, i, [Deviate]).pieces
    ensures IsStatement(c, st) && Are(ps, StmtTokens(st))
  {
    hide ArgsAt, KeywordAt, OneOfAt, At, Are, Kw;
    LastArg(c, s, i, Deviate);
    if At(s, i, "not-supported") {
      var word := KeywordAt(c, s, i, "not-supported");
      KeywordIs(c, s, i, "not-supported");
      var last := WordIs(c, s, word.end, ["{", ";"]);
      st := NotSupported(last == "{");
      OtherTokens(st);
      ThreeJoined(ps, wp, Kw("deviate"), word.pieces, [Kw("not-supported")],
                  OneOfAt(c, s, word.end, ["{", ";"]).pieces, Kw(last));
      LastIs(last);
    } else {
      var how := WordIs(c, s, i, DEVIATIONS);
      var word := OneOfAt(c, s, i, DEVIATIONS);
      var last := WordIs(c, s, word.end, ["{"]);
      st := Deviates(how);
      OtherTokens(st);
      ThreeJoined(ps, wp, Kw("deviate"), word.pieces, [Kw(how)], OneOfAt(c, s, word.end, ["{"]).pieces, Kw(last));
      LastIs(last);
    }
  }

  lemma LastIs(w: string)
    requires w == "{" || w == ";"
    ensures EndToken(w == "{") == Kw(w)
  {
  }

  lemma CloseIs(c: Chars, s: string, i: nat, ps: seq<Piece>, wp: seq<Piece>) returns (st: Stmt)
    requires i <= |s| && Are(wp, [Kw("}")]) && ArgsAt(c, s, i, []).Read? && ps == wp + ArgsAt(c, s, i, []).pieces
    ensures IsStatement(c, st) && Are(ps, StmtTokens(st))
  {
    st := Close;
    assert ps == wp;
  }

  /** What is read in the form of the keyword is a statement. */
  lemma FormIs(c: Chars, s: string, i: nat, ps: seq<Piece>, w: Word, wp: seq<Piece>, k: nat) returns (st: Stmt)
    requires i <= |s| && Are(wp, [Kw(w)]) && k < |FORMS| && w in FORMS[k].words && (k == 8 ==> w !in NAMED_WORDS)
    requires ArgsAt(c, s, i, FORMS[k].args).Read? && ps == wp + ArgsAt(c, s, i, FORMS[k].args).pieces
    ensures IsStatement(c, st) && Are(ps, StmtTokens(st))
  {
    EarlyForms();
    LateForms();
    LastForms();
    hide *;
    if k == 0 {
      BlocksSpelled(w);
      st := BlockIs(c, s, i, ps, w, wp);
    } else if k == 1 {
      PathsSpelled(w);
      st := PathBlockIs(c, s, i, ps, w, wp);
    } else if k == 2 {
      BodiesSpelled(w);
      st := BodyIs(c, s, i, ps, w, wp);
    } else if k == 3 {
      st := DeviateIs(c, s, i, ps, wp);
    } else if k == 4 {
      NamedSpelled(w);
      st := NamedIs(c, s, i, ps, w, wp);
    } else if k == 5 {
      ChoiceWord(w, 5, STATES);
      st := ChoiceIs(c, s, i, ps, w, wp, 5, STATES);
    } else if k == 6 {
      ValuesSpelled(w);
      st := ValueIs(c, s, i, ps, w, wp);
    } else if k == 7 {
      BooleansSpelled(w);
      ChoiceWord(w, 7, TRUTHS);
      st := ChoiceIs(c, s, i, ps, w, wp, 7, TRUTHS);
    } else if k == 8 {
      if w in LONG_TEXTS {
        LongSpelled(w);
      } else {
        ShortSpelled(w);
      }
      st := TextIs(c, s, i, ps, w, wp);
    } else if k == 9 {
      ChoiceWord(w, 9, ORDERS);
      st := ChoiceIs(c, s, i, ps, w, wp, 9, ORDERS);
    } else if k == 10 {
      CountsSpelled(w);
      st := CountIs(c, s, i, ps, w, wp);
    } else {
      st := CloseIs(c, s, i, ps, wp);
    }
  }

  lemma ChoiceWord(w: string, k: nat, words: seq<Word>)
    requires (w in BOOLEAN_WORDS && k == 7 && words == TRUTHS) || (w == "status" && k == 5 && words == STATES)
             || (w == "ordered-by" && k == 9 && words == ORDERS)
    ensures Choices(w, k, words)
  {
  }

  lemma ExtensionIs(c: Chars, s: string, i: nat) returns (st: Stmt)
    requires i <= |s| && ExtensionAt(c, s, i).Read?
    ensures IsStatement(c, st) && Are(ExtensionAt(c, s, i).pieces, StmtTokens(st))
  {
    hide IdentAt, WordsAt, Are, IsExtra, PrefixedName, EndToken;
    var name := NameIs(c, s, i, true);
    var first := IdentAt(c, s, i, true);
    var es, brace := ExtrasAre(c, s, first.end);
    st := Extension(name, es, brace);
    AreJoined(first.pieces, [Token(ExtensionToken, name)], WordsAt(c, s, first.end).pieces,
              ExtrasTokens(es) + [EndToken(brace)]);
    assert StmtTokens(st) == [Token(ExtensionToken, name)] + (ExtrasTokens(es) + [EndToken(brace)]);
  }

  /** What is read as one statement are the tokens of a statement. */
  lemma StatementIs(c: Chars, s: string, i: nat) returns (st: Stmt)
    requires i <= |s| && StatementAt(c, s, i).Read?
    ensures IsStatement(c, st) && Are(StatementAt(c, s, i).pieces, StmtTokens(st))
  {
    hide FORMS, FormsAt, OneOfAt, ArgsAt, ExtensionAt, StatementAt, Are, At, StmtTokens, IsStatement, Kw;
    hide NAMED_WORDS, NAMED;
    StatementStarts(c, s, i);
    var k := WhichForm(c, s, i, 0);
    if k == |FORMS| {
      st := ExtensionIs(c, s, i);
    } else {
      var w := WordIs(c, s, i, FORMS[k].words);
      if k == 8 && w in NAMED_WORDS {
        EarlyForms();
        OneOfIs(c, s, i, FORMS[4].words);
        NamedIn(w);
        assert false;
      }
      var word := OneOfAt(c, s, i, FORMS[k].words);
      st := FormIs(c, s, word.end, StatementAt(c, s, i).pieces, w, word.pieces, k);
    }
  }

  lemma {:induction false} StatementsAre(c: Chars, s: string, i: nat) returns (sts: seq<Stmt>)
    requires i <= |s| && TextFrom(c, s, i).Read?
    ensures forall k :: 0 <= k < |sts| ==> IsStatement(c, sts[k])
    ensures Are(TextFrom(c, s, i).pieces, AllTokens(sts))
    decreases |s| - i
  {
    hide StatementAt, StmtTokens, IsStatement;
    if i == |s| {
      sts := [];
    } else {
      var first := StatementAt(c, s, i);
      var st := StatementIs(c, s, i);
      var others := StatementsAre(c, s, first.end);
      sts := [st] + others;
      AreJoined(first.pieces, StmtTokens(st), TextFrom(c, s, first.end).pieces, AllTokens(others));
      assert sts[1..] == others;
    }
  }

  /** Whatever is read is a sequence of statements of the language. */
  lemma ReadIsStatements(c: Chars, s: string)
    requires Text(c, s).Read?
    ensures exists sts :: Are(Text(c, s).pieces, AllTokens(sts)) && AllStatements(c, sts)
  {
    hide TextFrom, SkipFrom, Are, AllTokens, IsStatement;
    var sts := StatementsAre(c, s, SkipFrom(c.space, s, 0).end);
    assert AllStatements(c, sts);
  }

  predicate AllStatements(c: Chars, sts: seq<Stmt>) {
    forall k :: 0 <= k < |sts| ==> IsStatement(c, sts[k])
  }

  // ---------- whole texts ----------

  predicate AllGaps(c: Chars, gaps: seq<Gap>) {
    forall k :: 0 <= k < |gaps| ==> GoodGap(c, gaps[k])
  }

  /** What is skipped behind tokens are gaps. */
  lemma {:induction false} PiecesGaps(c: Chars, s: string, i: nat, ps: seq<Piece>, end: nat, toks: seq<Token>)
    returns (gaps: seq<Gap>)
    requires Covers(c, s, i, ps, end) && Are(ps, toks)
    ensures |gaps| == |toks| && AllGaps(c, gaps) && Spelled(ps) == Print(toks, gaps)
    decreases |ps|
  {
    hide Fills, Next, GoodGap;
    if ps == [] {
      gaps := [];
    } else {
      var g := FillsGap(c, s, i, ps[0], Next(i, ps[0]));
      var rest := PiecesGaps(c, s, Next(i, ps[0]), ps[1..], end, toks[1..]);
      gaps := [g] + rest;
      assert gaps[1..] == rest;
      PrintFirst(ps, toks, gaps);
    }
  }

  lemma {:induction false} PrintFirst(ps: seq<Piece>, toks: seq<Token>, gaps: seq<Gap>)
    requires |gaps| == |toks| == |ps| > 0 && ps[0].token == toks[0] && ps[0].skipped == GapText(gaps[0])
    requires Spelled(ps[1..]) == Print(toks[1..], gaps[1..])
    ensures Spelled(ps) == Print(toks, gaps)
  {
  }

  lemma FillsGap(c: Chars, s: string, i: nat, p: Piece, next: nat) returns (g: Gap)
    requires Fills(c, s, i, p, next)
    ensures GoodGap(c, g) && GapText(g) == p.skipped
  {
    hide SkipFrom, GapText, GoodGap, Solid;
    g := SkippedGap(c, s, i + |p.token.val|);
  }

  /** Statements of the language and gaps, of which the text consists. */
  predicate Consists(c: Chars, s: string, sts: seq<Stmt>, lead: Gap, gaps: seq<Gap>) {
    && AllStatements(c, sts) && GoodGap(c, lead) && AllGaps(c, gaps)
    && |gaps| == |AllTokens(sts)| && s == GapText(lead) + Print(AllTokens(sts), gaps)
  }

  /** Whatever is read is a sequence of statements of the language, with gaps before and behind their tokens. */
  lemma ReadIsPrinted(c: Chars, s: string) returns (sts: seq<Stmt>, lead: Gap, gaps: seq<Gap>)
    requires Text(c, s).Read?
    ensures Consists(c, s, sts, lead, gaps) && Are(Text(c, s).pieces, AllTokens(sts))
  {
    hide Are, AllStatements, AllGaps, GoodGap, GapText, Print, AllTokens, SkipFrom, Covers, Spelled, TextFrom;
    TextIsPieces(c, s);
    ReadIsStatements(c, s);
    sts :| Are(Text(c, s).pieces, AllTokens(sts)) && AllStatements(c, sts);
    var first := SkipFrom(c.space, s, 0);
    lead := SkippedGap(c, s, 0);
    GapIs(c, s, lead, first.end);
    gaps := PiecesGaps(c, s, first.end, Text(c, s).pieces, |s|, AllTokens(sts));
  }

  lemma GapIs(c: Chars, s: string, g: Gap, end: nat)
    requires GapAt(c, s, 0, g) && end == |GapText(g)|
    ensures end <= |s| && s[..end] == GapText(g) && GoodGap(c, g)
  {
  }
}
