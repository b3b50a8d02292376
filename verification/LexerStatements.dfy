/**
  How statements are read: where the tokens of a statement stand one behind the other, the lexer takes just these
  tokens.
*/
module LexerStatements {
  import opened Wrappers
  import opened LexerText
  import opened LexerGrammar
  import opened LexerTokens
  import opened LexerForms

  /** The first token, those between, and the last one. */
  lemma ThreeParts(c: Chars, s: string, i: nat, ps: seq<Piece>, first: Token, mid: seq<Token>, last: Token)
    returns (p: Piece, a: seq<Piece>, q: Piece)
    requires Stands(c, s, i, ps) && Are(ps, [first] + mid + [last])
    ensures ps == [p] + a + [q] && p.token == first && Are(a, mid) && q.token == last
    ensures StandsOne(c, s, i, p) && Stands(c, s, Next(i, p), a) && StandsOne(c, s, EndOf(Next(i, p), a), q)
    ensures EndOf(i, ps) == Next(EndOf(Next(i, p), a), q)
    ensures i < Next(i, p) <= EndOf(Next(i, p), a) < EndOf(i, ps) <= |s|
  {
    AreBoth(ps, [first] + mid, [last]);
    hide StandsOne, Next, Stands, EndOf;
    var front := ps[..|mid| + 1];
    AreBoth(front, [first], mid);
    p, a, q := ps[0], front[1..], ps[|mid| + 1];
    assert front[..1] == [p] && ps[|mid| + 1..] == [q];
    StandsBoth(c, s, i, front, [q]);
    StandsBoth(c, s, i, [p], a);
    StandsSingle(c, s, i, p);
    StandsSingle(c, s, EndOf(i, front), q);
    StandsEnd(c, s, Next(i, p), a);
    StandsFits(c, s, i, p);
    StandsFits(c, s, EndOf(i, front), q);
  }

  lemma ArgsRead(c: Chars, s: string, i: nat, a: Arg, m: nat, b: Arg, pa: seq<Piece>, pb: seq<Piece>, end: nat)
    requires i <= m <= end <= |s| && ArgAt(c, s, i, a) == Read(pa, m) && ArgAt(c, s, m, b) == Read(pb, end)
    ensures ArgsAt(c, s, i, [a, b]) == Read(pa + pb, end)
  {
    hide ArgAt;
    LastArg(c, s, m, b);
    assert [a, b][1..] == [b];
  }

  lemma LastArg(c: Chars, s: string, i: nat, a: Arg)
    requires i <= |s|
    ensures ArgsAt(c, s, i, [a]) == ArgAt(c, s, i, a)
  {
    hide ArgAt;
    var first := ArgAt(c, s, i, a);
    assert first.pieces + [] == first.pieces;
  }

  /** The last argument is `{`, or any end of a statement. */
  predicate EndsWith(b: Arg, last: Token) {
    (b == OpenBrace && last == Kw("{")) || (b == End && (last == EndToken(true) || last == EndToken(false)))
  }

  lemma LastRead(c: Chars, s: string, i: nat, q: Piece, b: Arg)
    requires StandsOne(c, s, i, q) && EndsWith(b, q.token)
    ensures i <= |s| && ArgAt(c, s, i, b) == Read([q], Next(i, q))
    ensures !At(s, i, "+")
  {
    hide StandsOne, Next, ArgAt, At;
    CharAt(c, s, i, q, 0);
    AtFirst(s, i, "+");
    if b == OpenBrace {
      BraceRead(c, s, i, q);
    } else {
      EndRead(c, s, i, q, q.token == EndToken(true));
    }
  }

  /** A keyword, its argument and the end of the statement. */
  lemma UsualRead(c: Chars, s: string, i: nat, w: Word, k: nat, arg: Arg, b: Arg, p: Piece, a: seq<Piece>, q: Piece)
    requires StandsOne(c, s, i, p) && p.token == Kw(w) && Finds(w, k) && Lettered(w) && FORMS[k].args == [arg, b]
    requires var m, end := Next(i, p), EndOf(Next(i, p), a);
             m <= end <= |s| && ArgAt(c, s, m, arg) == Read(a, end)
             && StandsOne(c, s, end, q) && EndsWith(b, q.token) && Next(end, q) <= |s|
    ensures i <= |s| && StatementAt(c, s, i) == Read([p] + a + [q], Next(EndOf(Next(i, p), a), q))
  {
    hide StandsOne, Next, EndOf, Finds, ArgAt, ArgsAt, FORMS, StatementAt, EndsWith, At;
    var m, end := Next(i, p), EndOf(Next(i, p), a);
    FormRead(c, s, i, p, w, k);
    LastRead(c, s, end, q, b);
    StandsFits(c, s, end, q);
    ArgsRead(c, s, m, arg, end, b, a, [q], Next(end, q));
    assert [p] + (a + [q]) == [p] + a + [q];
  }

  // ---------- the arguments ----------

  lemma SingleToken(c: Chars, s: string, i: nat, a: seq<Piece>, t: Token)
    requires Stands(c, s, i, a) && Are(a, [t])
    ensures |a| == 1 && a == [a[0]] && a[0].token == t && StandsOne(c, s, i, a[0]) && EndOf(i, a) == Next(i, a[0])
  {
    hide StandsOne, Next;
    assert a[1..] == [];
  }

  lemma NameArg(c: Chars, s: string, i: nat, a: seq<Piece>, name: string)
    requires Stands(c, s, i, a) && Are(a, [Token(IdentToken, name)]) && Name(c, name)
    ensures i <= |s| && ArgAt(c, s, i, AnIdent) == Read(a, EndOf(i, a))
  {
    hide StandsOne, Next, ArgAt, Name, Are, Stands, EndOf;
    SingleToken(c, s, i, a, Token(IdentToken, name));
    NameRead(c, s, i, a[0]);
  }

  lemma NumberArg(c: Chars, s: string, i: nat, a: seq<Piece>, number: string)
    requires Stands(c, s, i, a) && Are(a, [Token(NumberToken, number)]) && NumberText(c, number, true)
    ensures i <= |s| && ArgAt(c, s, i, NumberOrString) == Read(a, EndOf(i, a))
  {
    hide StandsOne, Next, NumberText, Are, Stands, EndOf, NumberAt, StringAt;
    SingleToken(c, s, i, a, Token(NumberToken, number));
    NumberRead(c, s, i, a[0], true);
  }

  lemma CountArg(c: Chars, s: string, i: nat, a: seq<Piece>, count: string)
    requires Usual(c) && Stands(c, s, i, a) && (count == "unbounded" || NumberText(c, count, false))
    requires Are(a, [if count == "unbounded" then Kw(count) else Token(NumberToken, count)])
    ensures i <= |s| && ArgAt(c, s, i, Integer) == Read(a, EndOf(i, a))
  {
    hide StandsOne, Next, NumberText, Are, Stands, EndOf, ArgAt, Usual;
    SingleToken(c, s, i, a, if count == "unbounded" then Kw(count) else Token(NumberToken, count));
    IntegerRead(c, s, i, a[0]);
  }

  lemma ChoiceArg(c: Chars, s: string, i: nat, a: seq<Piece>, words: seq<Word>, value: string)
    requires Stands(c, s, i, a) && value in words && Are(a, [Kw(value)])
    requires forall j, k :: 0 <= j < k < |words| ==> words[j][0] != words[k][0]
    ensures i <= |s| && ArgAt(c, s, i, OneOf(words)) == Read(a, EndOf(i, a))
  {
    hide StandsOne, Next, Are, Stands, EndOf, OneOfAt;
    SingleToken(c, s, i, a, Kw(value));
    var k :| 0 <= k < |words| && words[k] == value;
    OneOfApart(c, s, i, words, k, a[0]);
  }

  lemma StringArg(c: Chars, s: string, i: nat, a: seq<Piece>, str: Str)
    requires Proper(c) && Stands(c, s, i, a) && Are(a, StrTokens(str)) && IsStr(str) && CleanStr(c, str)
    requires EndsQuoted(str) ==> !At(s, EndOf(i, a), "+")
    ensures i < EndOf(i, a) <= |s| && ArgAt(c, s, i, AString) == Read(a, EndOf(i, a))
  {
    hide StandsOne, Next, Are, Stands, EndOf, StringAt, Proper, IsStr, CleanStr, At;
    StringRead(c, s, i, a, str);
  }

  /** The character with which a string begins. */
  lemma StringBegins(c: Chars, s: string, i: nat, a: seq<Piece>, str: Str)
    requires Stands(c, s, i, a) && Are(a, StrTokens(str)) && IsStr(str) && CleanStr(c, str)
    ensures i < |s| && str.text != "" && s[i] == str.text[0]
    ensures !str.Bare? ==> s[i] == '\"' || s[i] == '\''
    ensures str.Bare? ==> s[i] != ';' && s[i] != '{'
  {
    hide StandsOne, Next, EndOf, Within;
    PartsAre(a, str);
    CharAt(c, s, i, a[0], 0);
  }

  /** A string that is not begun like a number, where a number may stand. */
  lemma TextArg(c: Chars, s: string, i: nat, a: seq<Piece>, str: Str)
    requires Usual(c) && Stands(c, s, i, a) && Are(a, StrTokens(str)) && IsStr(str) && CleanStr(c, str)
    requires NoNumber(c, str)
    requires EndsQuoted(str) ==> !At(s, EndOf(i, a), "+")
    ensures i < EndOf(i, a) <= |s| && ArgAt(c, s, i, NumberOrString) == Read(a, EndOf(i, a))
  {
    hide StandsOne, Next, Are, Stands, EndOf, StringAt, NumberAt, IsStr, CleanStr, At;
    StringRead(c, s, i, a, str);
    StringBegins(c, s, i, a, str);
    assert Mark('\"') && Mark('\'');
    NoNumberAt(c, s, i, true);
  }

  // ---------- statements with a keyword ----------

  lemma EndTokens(brace: bool)
    ensures EndsWith(End, EndToken(brace)) && EndsWith(OpenBrace, Kw("{"))
  {
  }

  lemma LetteredIs(w: string)
    requires Lettered(w)
    ensures w != ""
  {
  }

  lemma UsualIs(c: Chars)
    requires Usual(c)
    ensures Proper(c)
  {
  }

  lemma TokensAre(st: Stmt)
    ensures st.Block? ==> StmtTokens(st) == [Kw(st.word)] + [Token(IdentToken, st.name)] + [Kw("{")]
    ensures st.PathBlock? ==> StmtTokens(st) == [Kw(st.word)] + StrTokens(st.path) + [Kw("{")]
    ensures st.Named? ==> StmtTokens(st) == [Kw(st.word)] + [Token(IdentToken, st.name)] + [EndToken(st.brace)]
    ensures st.Chosen? ==> StmtTokens(st) == [Kw(st.word)] + [Kw(st.value)] + [EndToken(st.brace)]
    ensures st.WithNumber? ==>
              StmtTokens(st) == [Kw(st.word)] + [Token(NumberToken, st.number)] + [EndToken(st.brace)]
    ensures st.WithCount? ==>
              StmtTokens(st) == [Kw(st.word)]
                                + [if st.count == "unbounded" then Kw(st.count) else Token(NumberToken, st.count)]
                                + [EndToken(st.brace)]
    ensures st.WithText? ==> StmtTokens(st) == [Kw(st.word)] + StrTokens(st.str) + [EndToken(st.brace)]
  {
    hide Kw, EndToken, StrTokens;
  }

  lemma BlockRead(c: Chars, s: string, i: nat, ps: seq<Piece>, word: string, name: string)
    requires Stands(c, s, i, ps) && Are(ps, StmtTokens(Block(word, name)))
    requires word in BLOCK_WORDS && Name(c, name)
    ensures i < EndOf(i, ps) <= |s| && StatementAt(c, s, i) == Read(ps, EndOf(i, ps))
  {
    hide *;
    BlockFinds(word);
    EarlyForms();
    EndTokens(true);
    TokensAre(Block(word, name));
    LetteredIs(word);
    var p, a, q := ThreeParts(c, s, i, ps, Kw(word), [Token(IdentToken, name)], Kw("{"));
    NameArg(c, s, Next(i, p), a, name);
    UsualRead(c, s, i, word, 0, AnIdent, OpenBrace, p, a, q);
  }

  lemma PathBlockRead(c: Chars, s: string, i: nat, ps: seq<Piece>, word: string, path: Str)
    requires Stands(c, s, i, ps) && Are(ps, StmtTokens(PathBlock(word, path)))
    requires Usual(c) && word in PATH_WORDS && IsStr(path) && CleanStr(c, path)
    ensures i < EndOf(i, ps) <= |s| && StatementAt(c, s, i) == Read(ps, EndOf(i, ps))
  {
    hide *;
    PathFinds(word);
    EarlyForms();
    EndTokens(true);
    TokensAre(PathBlock(word, path));
    LetteredIs(word);
    UsualIs(c);
    var p, a, q := ThreeParts(c, s, i, ps, Kw(word), StrTokens(path), Kw("{"));
    LastRead(c, s, EndOf(Next(i, p), a), q, OpenBrace);
    StringArg(c, s, Next(i, p), a, path);
    UsualRead(c, s, i, word, 1, AString, OpenBrace, p, a, q);
  }

  lemma NamedRead(c: Chars, s: string, i: nat, ps: seq<Piece>, word: string, name: string, brace: bool)
    requires Stands(c, s, i, ps) && Are(ps, StmtTokens(Named(word, name, brace)))
    requires word in NAMED_WORDS && Name(c, name)
    ensures i < EndOf(i, ps) <= |s| && StatementAt(c, s, i) == Read(ps, EndOf(i, ps))
  {
    hide *;
    NamedFinds(word);
    EarlyForms();
    EndTokens(brace);
    TokensAre(Named(word, name, brace));
    LetteredIs(word);
    var p, a, q := ThreeParts(c, s, i, ps, Kw(word), [Token(IdentToken, name)], EndToken(brace));
    NameArg(c, s, Next(i, p), a, name);
    UsualRead(c, s, i, word, 4, AnIdent, End, p, a, q);
  }

  lemma WithNumberRead(c: Chars, s: string, i: nat, ps: seq<Piece>, word: string, number: string, brace: bool)
    requires Stands(c, s, i, ps) && Are(ps, StmtTokens(WithNumber(word, number, brace)))
    requires word in VALUE_WORDS && NumberText(c, number, true)
    ensures i < EndOf(i, ps) <= |s| && StatementAt(c, s, i) == Read(ps, EndOf(i, ps))
  {
    hide *;
    ValueFinds(word);
    LateForms();
    EndTokens(brace);
    TokensAre(WithNumber(word, number, brace));
    LetteredIs(word);
    var p, a, q := ThreeParts(c, s, i, ps, Kw(word), [Token(NumberToken, number)], EndToken(brace));
    NumberArg(c, s, Next(i, p), a, number);
    UsualRead(c, s, i, word, 6, NumberOrString, End, p, a, q);
  }

  lemma WithCountRead(c: Chars, s: string, i: nat, ps: seq<Piece>, word: string, count: string, brace: bool)
    requires Usual(c) && Stands(c, s, i, ps) && Are(ps, StmtTokens(WithCount(word, count, brace)))
    requires word in COUNT_WORDS && (count == "unbounded" || NumberText(c, count, false))
    ensures i < EndOf(i, ps) <= |s| && StatementAt(c, s, i) == Read(ps, EndOf(i, ps))
  {
    hide *;
    CountFinds(word);
    LastForms();
    EndTokens(brace);
    TokensAre(WithCount(word, count, brace));
    LetteredIs(word);
    var t := if count == "unbounded" then Kw(count) else Token(NumberToken, count);
    var p, a, q := ThreeParts(c, s, i, ps, Kw(word), [t], EndToken(brace));
    CountArg(c, s, Next(i, p), a, count);
    UsualRead(c, s, i, word, 10, Integer, End, p, a, q);
  }

  lemma WithTextRead(c: Chars, s: string, i: nat, ps: seq<Piece>, word: string, str: Str, brace: bool)
    requires Stands(c, s, i, ps) && Are(ps, StmtTokens(WithText(word, str, brace)))
    requires Usual(c) && IsStr(str) && CleanStr(c, str) && (word in LONG_TEXT_WORDS || word in SHORT_TEXT_WORDS)
    ensures i < EndOf(i, ps) <= |s| && StatementAt(c, s, i) == Read(ps, EndOf(i, ps))
  {
    hide *;
    TextFinds(word);
    LateForms();
    EndTokens(brace);
    TokensAre(WithText(word, str, brace));
    LetteredIs(word);
    UsualIs(c);
    var p, a, q := ThreeParts(c, s, i, ps, Kw(word), StrTokens(str), EndToken(brace));
    LastRead(c, s, EndOf(Next(i, p), a), q, End);
    StringArg(c, s, Next(i, p), a, str);
    UsualRead(c, s, i, word, 8, AString, End, p, a, q);
  }

  lemma ValueTextRead(c: Chars, s: string, i: nat, ps: seq<Piece>, word: string, str: Str, brace: bool)
    requires Stands(c, s, i, ps) && Are(ps, StmtTokens(WithText(word, str, brace)))
    requires Usual(c) && IsStr(str) && CleanStr(c, str) && word in VALUE_WORDS && NoNumber(c, str)
    ensures i < EndOf(i, ps) <= |s| && StatementAt(c, s, i) == Read(ps, EndOf(i, ps))
  {
    hide *;
    ValueFinds(word);
    LateForms();
    EndTokens(brace);
    TokensAre(WithText(word, str, brace));
    LetteredIs(word);
    var p, a, q := ThreeParts(c, s, i, ps, Kw(word), StrTokens(str), EndToken(brace));
    LastRead(c, s, EndOf(Next(i, p), a), q, End);
    TextArg(c, s, Next(i, p), a, str);
    UsualRead(c, s, i, word, 6, NumberOrString, End, p, a, q);
  }

  predicate Choices(word: string, k: nat, words: seq<Word>) {
    (word in BOOLEAN_WORDS && k == 7 && words == TRUTHS) || (word == "status" && k == 5 && words == STATES)
    || (word == "ordered-by" && k == 9 && words == ORDERS)
  }

  lemma ChoiceFinds(word: string, k: nat, words: seq<Word>)
    requires Choices(word, k, words)
    ensures Finds(word, k) && Lettered(word) && FORMS[k].args == [OneOf(words), End]
    ensures forall i, j :: 0 <= i < j < |words| ==> words[i][0] != words[j][0]
  {
    LateForms();
    LastForms();
    StatusFinds();
    OrderFinds();
    if word in BOOLEAN_WORDS {
      BooleanFinds(word);
    }
    hide FORMS, Finds, BOOLEAN_WORDS;
  }

  lemma ChosenRead(c: Chars, s: string, i: nat, ps: seq<Piece>, word: string, value: string, brace: bool, k: nat,
                   words: seq<Word>)
    requires Stands(c, s, i, ps) && Are(ps, StmtTokens(Chosen(word, value, brace)))
    requires Choices(word, k, words) && value in words
    ensures i < EndOf(i, ps) <= |s| && StatementAt(c, s, i) == Read(ps, EndOf(i, ps))
  {
    hide *;
    ChoiceFinds(word, k, words);
    EndTokens(brace);
    TokensAre(Chosen(word, value, brace));
    LetteredIs(word);
    var p, a, q := ThreeParts(c, s, i, ps, Kw(word), [Kw(value)], EndToken(brace));
    ChoiceArg(c, s, Next(i, p), a, words, value);
    UsualRead(c, s, i, word, k, OneOf(words), End, p, a, q);
  }

  // ---------- statements of other kinds ----------

  lemma EmptyEnd(i: nat)
    ensures EndOf(i, []) == i
  {
  }

  lemma BodyRead(c: Chars, s: string, i: nat, ps: seq<Piece>, word: string)
    requires Stands(c, s, i, ps) && Are(ps, StmtTokens(Body(word))) && word in BODY_WORDS
    ensures i < EndOf(i, ps) <= |s| && StatementAt(c, s, i) == Read(ps, EndOf(i, ps))
  {
    hide *;
    BodyFinds(word);
    EarlyForms();
    LetteredIs(word);
    BodyTokens(word);
    var p, a, q := ThreeParts(c, s, i, ps, Kw(word), [], Kw("{"));
    NoPieces(a);
    EmptyEnd(Next(i, p));
    FormRead(c, s, i, p, word, 2) by { NotMark(word); }
    LastArg(c, s, Next(i, p), OpenBrace);
    BraceRead(c, s, Next(i, p), q);
    BehindRead(p, q, Next(Next(i, p), q));
    assert [p] + [] + [q] == [p] + [q];
  }

  lemma BodyTokens(word: string)
    ensures StmtTokens(Body(word)) == [Kw(word)] + [] + [Kw("{")]
  {
  }

  lemma NotMark(w: string)
    requires Lettered(w)
    ensures w != "" && !Mark(w[0])
  {
  }

  lemma BehindRead(p: Piece, q: Piece, end: nat)
    ensures Behind([p], Read([q], end)) == Read([p] + [q], end)
  {
  }

  lemma NoPieces(a: seq<Piece>)
    requires Are(a, [])
    ensures a == []
  {
  }

  lemma DeviateArg(c: Chars, s: string, m: nat, a: seq<Piece>, how: string, q: Piece, last: Token)
    requires Stands(c, s, m, a) && Are(a, [Kw(how)]) && StandsOne(c, s, EndOf(m, a), q) && q.token == last
    requires if how == "not-supported" then last == EndToken(true) || last == EndToken(false)
             else how in ["add", "replace", "delete"] && last == EndToken(true)
    ensures m <= |s| && ArgAt(c, s, m, Deviate) == Read(a + [q], Next(EndOf(m, a), q))
  {
    hide StandsOne, Next, Stands, EndOf, KeywordAt, OneOfAt, At, Are;
    SingleToken(c, s, m, a, Kw(how));
    var end := EndOf(m, a);
    StandsFits(c, s, m, a[0]);
    CharAt(c, s, m, a[0], 0);
    if how == "not-supported" {
      KeywordRead(c, s, m, a[0], how);
      OneOfApart(c, s, end, ["{", ";"], if last == EndToken(true) then 0 else 1, q);
    } else {
      AtFirst(s, m, "not-supported");
      OneOfApart(c, s, m, DEVIATIONS, if how == "replace" then 0 else if how == "add" then 1 else 2, a[0]);
      OneOfApart(c, s, end, ["{"], 0, q);
    }
  }

  lemma DeviateRead(c: Chars, s: string, i: nat, ps: seq<Piece>, how: string, last: Token)
    requires Stands(c, s, i, ps) && Are(ps, [Kw("deviate")] + [Kw(how)] + [last])
    requires if how == "not-supported" then last == EndToken(true) || last == EndToken(false)
             else how in ["add", "replace", "delete"] && last == EndToken(true)
    ensures i < EndOf(i, ps) <= |s| && StatementAt(c, s, i) == Read(ps, EndOf(i, ps))
  {
    hide StandsOne, Next, Stands, EndOf, Finds, FORMS, StatementAt, ArgsAt, ArgAt, Are, Kw, EndToken;
    DeviateFinds();
    EarlyForms();
    var p, a, q := ThreeParts(c, s, i, ps, Kw("deviate"), [Kw(how)], last);
    FormRead(c, s, i, p, "deviate", 3);
    LastArg(c, s, Next(i, p), Deviate);
    DeviateArg(c, s, Next(i, p), a, how, q, last);
    assert [p] + a + [q] == [p] + (a + [q]);
  }

  // ---------- where no keyword stands ----------

  predicate OfKeyChars(w: string) {
    w != "" && forall k :: 0 <= k < |w| ==> KeyChar(w[k])
  }

  lemma Listed(w: string)
    requires w in BLOCK_WORDS || w in NAMED_WORDS || w in LONG_TEXT_WORDS || w in SHORT_TEXT_WORDS || w in VALUE_WORDS
             || w in PATH_WORDS || w in BOOLEAN_WORDS || w in COUNT_WORDS || w in BODY_WORDS
             || w in ["deviate", "status", "ordered-by"]
    ensures w in KEYWORDS
  {
    hide BLOCK_WORDS, NAMED_WORDS, LONG_TEXT_WORDS, SHORT_TEXT_WORDS, VALUE_WORDS, PATH_WORDS, BOOLEAN_WORDS;
    hide COUNT_WORDS, BODY_WORDS;
  }

  lemma BlocksSpelled(w: Word) requires w in BLOCKS ensures OfKeyChars(w) && w in BLOCK_WORDS {}
  lemma NamedSpelled(w: Word) requires w in NAMED ensures OfKeyChars(w) && w in NAMED_WORDS {}
  lemma LongSpelled(w: Word) requires w in LONG_TEXTS ensures OfKeyChars(w) && w in LONG_TEXT_WORDS {}
  lemma ShortSpelled(w: Word)
    requires w in SHORT_TEXTS
    ensures OfKeyChars(w) && (w in SHORT_TEXT_WORDS || w in NAMED_WORDS)
  {
  }
  lemma PathsSpelled(w: Word) requires w in PATHS ensures OfKeyChars(w) && w in PATH_WORDS {}
  lemma BodiesSpelled(w: Word) requires w in BODIES ensures OfKeyChars(w) && w in BODY_WORDS {}
  lemma ValuesSpelled(w: Word) requires w in VALUES ensures OfKeyChars(w) && w in VALUE_WORDS {}
  lemma BooleansSpelled(w: Word) requires w in BOOLEANS ensures OfKeyChars(w) && w in BOOLEAN_WORDS {}
  lemma CountsSpelled(w: Word) requires w in COUNTS ensures OfKeyChars(w) && w in COUNT_WORDS {}
  lemma OthersSpelled(w: Word) requires w in ["deviate", "status", "ordered-by"] ensures OfKeyChars(w) {}

  /** The words of all forms but the last are keywords. */
  lemma FormSpelled(k: nat, w: Word)
    requires k < 11 && |FORMS| == 12 && w in FORMS[k].words
    ensures OfKeyChars(w) && w in KEYWORDS
  {
    EarlyForms();
    LateForms();
    LastForms();
    hide *;
    if k == 0 {
      BlocksSpelled(w);
    } else if k == 1 {
      PathsSpelled(w);
    } else if k == 2 {
      BodiesSpelled(w);
    } else if k == 4 {
      NamedSpelled(w);
    } else if k == 6 {
      ValuesSpelled(w);
    } else if k == 7 {
      BooleansSpelled(w);
    } else if k == 8 && w in LONG_TEXTS {
      LongSpelled(w);
    } else if k == 8 {
      ShortSpelled(w);
    } else if k == 10 {
      CountsSpelled(w);
    } else {
      assert w in ["deviate", "status", "ordered-by"];
      OthersSpelled(w);
    }
    Listed(w);
  }

  lemma CloseRead(c: Chars, s: string, i: nat, p: Piece)
    requires StandsOne(c, s, i, p) && p.token == Kw("}")
    ensures i < Next(i, p) <= |s| && StatementAt(c, s, i) == Read([p], Next(i, p))
  {
    LastForms();
    hide FORMS, StandsOne, Next, FormsAt, OneOfAt, ArgsAt, At, KEYWORDS;
    StandsFits(c, s, i, p);
    CharAt(c, s, i, p, 0);
    forall k, j | 0 <= k < 11 && 0 <= j < |FORMS[k].words| ensures !At(s, i, FORMS[k].words[j]) {
      FormSpelled(k, FORMS[k].words[j]);
      AtFirst(s, i, FORMS[k].words[j]);
    }
    StatementStarts(c, s, i);
    SkipForms(c, s, i, 0, 11);
    FormsStep(c, s, i, FORMS, 11);
    OneOfRead(c, s, i, ["}"], 0, p);
    ArgsStep(c, s, Next(i, p), [], 0);
    assert [p] + [] == [p];
  }

  lemma KeyIsName(c: Chars, x: char)
    requires Usual(c)
    ensures KeyChar(x) ==> NameChar(c, x)
  {
  }

  lemma PrefixDiffers(w: string, name: string)
    requires |w| <= |name|
    ensures w <= name || exists k :: 0 <= k < |w| && w[k] != name[k]
  {
    if forall k :: 0 <= k < |w| ==> w[k] == name[k] {
      assert w == name[..|w|];
    }
  }

  /** A name that no keyword begins. */
  lemma NameNotAt(c: Chars, s: string, i: nat, p: Piece, w: Word)
    requires Usual(c) && StandsOne(c, s, i, p) && p.token.typ.ExtensionToken? && Name(c, p.token.val)
    requires OfKeyChars(w) && !(w <= p.token.val)
    ensures !At(s, i, w)
  {
    hide StandsOne, At;
    CharBehind(c, s, i, p);
    AtChars(s, i, w);
    var name := p.token.val;
    forall k | 0 <= k < |name| ensures i + k < |s| && s[i + k] == name[k] {
      CharAt(c, s, i, p, k);
    }
    if |w| > |name| {
      assert KeyChar(w[|name|]);
      KeyIsName(c, w[|name|]);
    } else {
      PrefixDiffers(w, name);
    }
  }

  lemma NameIsNoKeyword(c: Chars, s: string, i: nat, p: Piece)
    requires Usual(c) && StandsOne(c, s, i, p) && p.token.typ.ExtensionToken? && Name(c, p.token.val)
    requires NoKeyword(p.token.val)
    ensures i <= |s| && StatementAt(c, s, i) == ExtensionAt(c, s, i)
  {
    LastForms();
    hide FORMS, StandsOne, Next, FormsAt, OneOfAt, ArgsAt, At, KEYWORDS, ExtensionAt, OfKeyChars;
    StandsFits(c, s, i, p);
    CharAt(c, s, i, p, 0);
    assert NameChar(c, s[i]);
    AtFirst(s, i, "}");
    forall k, j | 0 <= k < 11 && 0 <= j < |FORMS[k].words| ensures !At(s, i, FORMS[k].words[j]) {
      var w := FORMS[k].words[j];
      FormSpelled(k, w);
      var n :| 0 <= n < |KEYWORDS| && KEYWORDS[n] == w;
      NameNotAt(c, s, i, p, w);
    }
    StatementStarts(c, s, i);
    SkipForms(c, s, i, 0, 12);
    FormsStep(c, s, i, FORMS, 12);
  }

  // ---------- extension statements ----------

  /** Nothing is joined to one of them by what follows it. */
  predicate Unjoined(c: Chars, es: seq<Extra>) {
    && (forall k :: 0 <= k < |es| ==> IsExtra(c, es[k]) && CleanExtra(c, es[k]))
    && (forall k :: 0 < k < |es| ==> !WouldJoin(es[k - 1], es[k]))
  }

  lemma UnjoinedRest(c: Chars, es: seq<Extra>)
    requires Unjoined(c, es) && es != []
    ensures Unjoined(c, es[1..]) && IsExtra(c, es[0]) && CleanExtra(c, es[0])
    ensures |es| > 1 ==> !WouldJoin(es[0], es[1])
  {
    hide IsExtra, CleanExtra, WouldJoin;
    forall k | 0 < k < |es[1..]| ensures !WouldJoin(es[1..][k - 1], es[1..][k]) {
      assert es[1..][k - 1] == es[k] && es[1..][k] == es[k + 1];
    }
  }

  /** What an argument of an extension begins with. */
  lemma ExtraBegins(c: Chars, s: string, i: nat, a: seq<Piece>, e: Extra)
    requires Usual(c) && Stands(c, s, i, a) && Are(a, ExtraTokens(e)) && IsExtra(c, e) && CleanExtra(c, e)
    ensures i < |s| && s[i] != ';' && s[i] != '{'
    ensures s[i] == '+' ==> e.ExtraNumber? && e.number != "" && e.number[0] == '+'
    ensures a != []
  {
    hide StandsOne, Next, EndOf, Stands, Are;
    match e
    case ExtraNumber(number) =>
      SingleToken(c, s, i, a, Token(NumberToken, number));
      CharAt(c, s, i, a[0], 0);
      assert Mark(';') && Mark('{');
    case ExtraText(str) =>
      StringBegins(c, s, i, a, str);
      PartsAre(a, str);
  }

  lemma ExtrasSplit(ps: seq<Piece>, es: seq<Extra>, end: Token) returns (a: seq<Piece>, b: seq<Piece>)
    requires Are(ps, ExtrasTokens(es) + [end]) && es != []
    ensures ps == a + b && Are(a, ExtraTokens(es[0])) && Are(b, ExtrasTokens(es[1..]) + [end])
  {
    hide Are;
    var first, rest := ExtraTokens(es[0]), ExtrasTokens(es[1..]);
    assert ExtrasTokens(es) + [end] == first + (rest + [end]);
    AreBoth(ps, first, rest + [end]);
    a, b := ps[..|first|], ps[|first|..];
  }

  /** No `+` follows a string in quotes. */
  lemma NoPlus(c: Chars, s: string, i: nat, ps: seq<Piece>, es: seq<Extra>, brace: bool)
    requires Usual(c) && Stands(c, s, i, ps) && Are(ps, ExtrasTokens(es) + [EndToken(brace)]) && Unjoined(c, es)
    requires es != [] && es[0].ExtraNumber? && es[0].number != "" ==> es[0].number[0] != '+'
    ensures !At(s, i, "+")
  {
    hide StandsOne, Next, EndOf, Stands, Are, IsExtra, CleanExtra, Usual, At, ExtraTokens;
    AtFirst(s, i, "+");
    if es == [] {
      EndTokens(brace);
      assert ExtrasTokens(es) + [EndToken(brace)] == [EndToken(brace)];
      SingleToken(c, s, i, ps, EndToken(brace));
      LastRead(c, s, i, ps[0], End);
    } else {
      var a, b := ExtrasSplit(ps, es, EndToken(brace));
      StandsBoth(c, s, i, a, b);
      UnjoinedRest(c, es);
      ExtraBegins(c, s, i, a, es[0]);
    }
  }

  lemma ExtraArg(c: Chars, s: string, i: nat, a: seq<Piece>, e: Extra)
    requires Usual(c) && Stands(c, s, i, a) && Are(a, ExtraTokens(e)) && IsExtra(c, e) && CleanExtra(c, e)
    requires e.ExtraText? && EndsQuoted(e.str) ==> !At(s, EndOf(i, a), "+")
    ensures i <= |s| && ArgAt(c, s, i, NumberOrString) == Read(a, EndOf(i, a))
  {
    hide StandsOne, Next, EndOf, Stands, Are, Usual, At, ArgAt;
    match e
    case ExtraNumber(number) => NumberArg(c, s, i, a, number);
    case ExtraText(str) => TextArg(c, s, i, a, str);
  }

  lemma {:induction false} WordsRead(c: Chars, s: string, i: nat, ps: seq<Piece>, es: seq<Extra>, brace: bool)
    requires Usual(c) && Stands(c, s, i, ps) && Are(ps, ExtrasTokens(es) + [EndToken(brace)]) && Unjoined(c, es)
    ensures i < EndOf(i, ps) <= |s| && WordsAt(c, s, i) == Read(ps, EndOf(i, ps))
    decreases |es|
  {
    hide StandsOne, Next, EndOf, Stands, Are, IsExtra, CleanExtra, Usual, At, ExtraTokens, WordsAt, OneOfAt, Unjoined;
    hide EndToken;
    if es == [] {
      assert ExtrasTokens(es) + [EndToken(brace)] == [EndToken(brace)];
      SingleToken(c, s, i, ps, EndToken(brace));
      StandsFits(c, s, i, ps[0]);
      EndRead(c, s, i, ps[0], brace);
      WordsStep(c, s, i);
    } else {
      var a, b := ExtrasSplit(ps, es, EndToken(brace));
      StandsBoth(c, s, i, a, b);
      UnjoinedRest(c, es);
      ExtraBegins(c, s, i, a, es[0]);
      if es[0].ExtraText? && EndsQuoted(es[0].str) {
        NoPlus(c, s, EndOf(i, a), b, es[1..], brace);
      }
      ExtraArg(c, s, i, a, es[0]);
      OneOfOther(c, s, i, ENDS);
      WordsStep(c, s, i);
      WordsRead(c, s, EndOf(i, a), b, es[1..], brace);
    }
  }

  lemma ExtensionRead(c: Chars, s: string, i: nat, ps: seq<Piece>, name: string, es: seq<Extra>, brace: bool)
    requires Usual(c) && Stands(c, s, i, ps) && Are(ps, StmtTokens(Extension(name, es, brace)))
    requires PrefixedName(c, name) && NoKeyword(name) && Unjoined(c, es)
    ensures i < EndOf(i, ps) <= |s| && StatementAt(c, s, i) == Read(ps, EndOf(i, ps))
  {
    hide StandsOne, Next, EndOf, Stands, Are, Usual, ExtrasTokens, WordsAt, Unjoined, EndToken, StatementAt, IdentAt;
    var first, rest := Token(ExtensionToken, name), ExtrasTokens(es) + [EndToken(brace)];
    assert StmtTokens(Extension(name, es, brace)) == [first] + rest;
    AreBoth(ps, [first], rest);
    var p, b := ps[0], ps[1..];
    assert ps[..1] == [p];
    StandsBoth(c, s, i, [p], b);
    SingleToken(c, s, i, [p], first);
    NameIsNoKeyword(c, s, i, p);
    PrefixedRead(c, s, i, p);
    WordsRead(c, s, Next(i, p), b, es, brace);
  }
}
