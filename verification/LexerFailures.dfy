/**
  What is not read: a keyword that is not followed by its kind of argument, a name that begins with a keyword, and an
  extension statement that the text leaves open.
*/
module LexerFailures {
  import opened Wrappers
  import opened LexerText
  import opened LexerGrammar
  import opened LexerTokens
  import opened LexerForms
  import opened LexerStatements
  import opened LexerPrinted
  import opened LexerGaps
  import opened LexerReading

  // ---------- keywords without their argument ----------

  lemma AtIs(s: string, i: nat, w: string)
    requires i <= |s|
    ensures At(s, i, w) <==> w <= s[i..]
  {
    if At(s, i, w) {
      assert s[i..][..|w|] == s[i..i + |w|];
    }
  }

  lemma WordWrong(c: Chars, s: string, i: nat, w: Word)
    requires i <= |s|
    ensures KeywordAt(c, s, i, w) == Wrong([]) <==> !(w <= s[i..])
    ensures KeywordAt(c, s, i, w) != Wrong([]) ==> KeywordAt(c, s, i, w).pieces != []
    ensures KeywordAt(c, s, i, w).Wrong? ==> KeywordAt(c, s, i, w) == Wrong([])
  {
    hide At, SkipFrom;
    AtIs(s, i, w);
  }

  lemma OneOfWrong(c: Chars, s: string, i: nat, words: seq<Word>)
    requires i <= |s|
    ensures OneOfAt(c, s, i, words) == Wrong([]) <==> !StartsWith(s[i..], words)
    ensures OneOfAt(c, s, i, words) != Wrong([]) ==> OneOfAt(c, s, i, words).pieces != []
    ensures OneOfAt(c, s, i, words).Wrong? ==> OneOfAt(c, s, i, words) == Wrong([])
    decreases |words|
  {
    hide At, KeywordAt;
    if words != [] {
      AtIs(s, i, words[0]);
      WordWrong(c, s, i, words[0]);
      OneOfWrong(c, s, i, words[1..]);
      if k :| 0 <= k < |words| && words[k] <= s[i..] && !At(s, i, words[0]) {
        assert words[1..][k - 1] == words[k];
      }
      if k :| 0 <= k < |words| - 1 && words[1..][k] <= s[i..] {
        assert words[k + 1] <= s[i..];
      }
    }
  }

  lemma NameWrong(c: Chars, s: string, i: nat)
    requires i <= |s|
    ensures ArgAt(c, s, i, AnIdent) == Wrong([]) <==> i == |s| || !NameChar(c, s[i])
    ensures ArgAt(c, s, i, AnIdent) != Wrong([]) ==> ArgAt(c, s, i, AnIdent).pieces != []
  {
    hide SkipFrom, IsIdent, NameChar;
    IdentStep(c, s, i);
    if i < |s| {
      IdentIs(c, s[i]);
    }
  }

  lemma NumberWrong(c: Chars, s: string, i: nat, decimal: bool)
    requires i <= |s|
    ensures NumberAt(c, s, i, decimal) == Wrong([]) <==> i == |s| || !(c.digit(s[i]) || Sign(s[i]))
    ensures NumberAt(c, s, i, decimal) != Wrong([]) ==> !NumberAt(c, s, i, decimal).Wrong?
    ensures NumberAt(c, s, i, decimal) != Wrong([]) ==> NumberAt(c, s, i, decimal).pieces != []
  {
    hide SkipFrom;
  }

  lemma {:induction false} BareAlways(space: char -> bool, s: string, i: nat, begin: char)
    requires i <= |s|
    ensures StringEnd(space, s, i, begin, false).Some?
    decreases |s| - i
  {
    if i < |s| && s[i] != EOF && !(space(s[i]) || s[i] == ';' || s[i] == '{') {
      BareAlways(space, s, i + 1, begin);
    }
  }

  lemma UnclosedIs(c: Chars, s: string, i: nat)
    requires i <= |s|
    ensures FirstString(c, s, i).None? <==> Unclosed(s[i..])
  {
    hide QuotedText;
    var rest := s[i..];
    if FirstString(c, s, i).None? {
      BareAlways(c.space, s, i + 1, s[i]);
      forall n | 0 <= n <= |rest| ensures !QuotedText(rest[..n]) {
        assert s[i..i + n] == rest[..n];
        if QuotedText(rest[..n]) {
          QuotedEnds(c, s, i, rest[..n]);
          assert false;
        }
      }
    } else {
      var end := FirstString(c, s, i).value;
      FirstIs(c, s, i);
      assert s[i..end] == rest[..end - i];
    }
  }

  lemma StringWrong(c: Chars, s: string, i: nat)
    requires i <= |s|
    ensures StringAt(c, s, i) == Wrong([]) <==> Unclosed(s[i..])
    ensures StringAt(c, s, i) != Wrong([]) ==> StringAt(c, s, i).pieces != []
  {
    hide SkipFrom, FirstString, Unclosed, KeywordAt, StringAt;
    UnclosedIs(c, s, i);
    StringStep(c, s, i);
  }

  lemma TextWrong(c: Chars, s: string, i: nat)
    requires Usual(c) && i <= |s|
    ensures ArgAt(c, s, i, NumberOrString) == Wrong([]) <==> Unclosed(s[i..])
    ensures ArgAt(c, s, i, NumberOrString) != Wrong([]) ==> ArgAt(c, s, i, NumberOrString).pieces != []
  {
    assert Mark('\"') && Mark('\'');
    assert Unclosed(s[i..]) ==> IsQuoted(s[i..]);
    hide NumberAt, StringAt, Unclosed;
    NumberWrong(c, s, i, true);
    StringWrong(c, s, i);
  }

  lemma DeviateWrong(c: Chars, s: string, i: nat)
    requires i <= |s|
    ensures ArgAt(c, s, i, Deviate) == Wrong([]) <==>
            !("not-supported" <= s[i..]) && !StartsWith(s[i..], DEVIATIONS)
    ensures ArgAt(c, s, i, Deviate) != Wrong([]) ==> ArgAt(c, s, i, Deviate).pieces != []
  {
    hide KeywordAt, OneOfAt, At, StartsWith;
    AtIs(s, i, "not-supported");
    WordWrong(c, s, i, "not-supported");
    OneOfWrong(c, s, i, DEVIATIONS);
  }

  lemma IntegerWrong(c: Chars, s: string, i: nat)
    requires i <= |s|
    ensures ArgAt(c, s, i, Integer) == Wrong([]) <==>
            !("unbounded" <= s[i..]) && (i == |s| || !(c.digit(s[i]) || Sign(s[i])))
    ensures ArgAt(c, s, i, Integer) != Wrong([]) ==> ArgAt(c, s, i, Integer).pieces != []
  {
    hide KeywordAt, NumberAt;
    WordWrong(c, s, i, "unbounded");
    NumberWrong(c, s, i, false);
  }

  /** If the first argument is missing, so are all. */
  lemma ArgsWrong(c: Chars, s: string, i: nat, args: seq<Arg>)
    requires i <= |s| && args != []
    requires ArgAt(c, s, i, args[0]) != Wrong([]) ==> ArgAt(c, s, i, args[0]).pieces != []
    ensures ArgsAt(c, s, i, args) == Wrong([]) <==> ArgAt(c, s, i, args[0]) == Wrong([])
  {
    hide ArgAt;
  }

  lemma SameStarts(rest: string, a: seq<string>, b: seq<string>)
    requires forall w :: w in a <==> w in b
    ensures StartsWith(rest, a) <==> StartsWith(rest, b)
  {
    if k :| 0 <= k < |a| && a[k] <= rest {
      assert a[k] in b;
    }
    if k :| 0 <= k < |b| && b[k] <= rest {
      assert b[k] in a;
    }
  }

  /** The statement fails behind its keyword exactly if its first argument is missing. */
  lemma KeywordAlone(c: Chars, s: string, i: nat, p: Piece, word: Word, m: nat, k: nat)
    requires StandsOne(c, s, i, p) && p.token == Kw(word) && m == Next(i, p) && Finds(word, k) && Lettered(word)
    requires k < |FORMS| && FORMS[k].args != []
    requires m <= |s| ==>
               var first := ArgAt(c, s, m, FORMS[k].args[0]);
               first != Wrong([]) ==> first.pieces != []
    ensures i < m <= |s|
    ensures StatementAt(c, s, i) == Wrong([p]) <==> ArgAt(c, s, m, FORMS[k].args[0]) == Wrong([])
  {
    hide FORMS, StandsOne, Next, StatementAt, ArgAt, ArgsAt, Finds;
    FormRead(c, s, i, p, word, k);
    var args := ArgsAt(c, s, m, FORMS[k].args);
    ArgsWrong(c, s, m, FORMS[k].args);
    assert args.pieces == [] ==> [p] + args.pieces == [p];
    assert args.pieces != [] ==> |[p] + args.pieces| > 1;
  }

  lemma BlockMissing(c: Chars, s: string, i: nat, p: Piece, word: Word, m: nat)
    requires StandsOne(c, s, i, p) && p.token == Kw(word) && m == Next(i, p)
    requires word in BLOCK_WORDS
    ensures i < m <= |s| && (StatementAt(c, s, i) == Wrong([p]) <==> (m == |s| || !NameChar(c, s[m])))
  {
    hide *;
    BlockFinds(word);
    EarlyForms();
    if m <= |s| {
      NameWrong(c, s, m);
    }
    KeywordAlone(c, s, i, p, word, m, 0);
  }

  lemma NamedMissing(c: Chars, s: string, i: nat, p: Piece, word: Word, m: nat)
    requires StandsOne(c, s, i, p) && p.token == Kw(word) && m == Next(i, p)
    requires word in NAMED_WORDS
    ensures i < m <= |s| && (StatementAt(c, s, i) == Wrong([p]) <==> (m == |s| || !NameChar(c, s[m])))
  {
    hide *;
    NamedFinds(word);
    EarlyForms();
    if m <= |s| {
      NameWrong(c, s, m);
    }
    KeywordAlone(c, s, i, p, word, m, 4);
  }

  lemma BodyMissing(c: Chars, s: string, i: nat, p: Piece, word: Word, m: nat)
    requires StandsOne(c, s, i, p) && p.token == Kw(word) && m == Next(i, p)
    requires word in BODY_WORDS
    ensures i < m <= |s| && (StatementAt(c, s, i) == Wrong([p]) <==> !("{" <= s[m..]))
  {
    hide *;
    BodyFinds(word);
    EarlyForms();
    if m <= |s| {
      BraceWrong(c, s, m);
    }
    KeywordAlone(c, s, i, p, word, m, 2);
  }

  lemma CountMissing(c: Chars, s: string, i: nat, p: Piece, word: Word, m: nat)
    requires StandsOne(c, s, i, p) && p.token == Kw(word) && m == Next(i, p)
    requires word in COUNT_WORDS
    ensures i < m <= |s|
    ensures StatementAt(c, s, i) == Wrong([p]) <==>
            !("unbounded" <= s[m..]) && (m == |s| || !(c.digit(s[m]) || Sign(s[m])))
  {
    hide *;
    CountFinds(word);
    LastForms();
    if m <= |s| {
      IntegerWrong(c, s, m);
    }
    KeywordAlone(c, s, i, p, word, m, 10);
  }

  lemma PathMissing(c: Chars, s: string, i: nat, p: Piece, word: Word, m: nat)
    requires StandsOne(c, s, i, p) && p.token == Kw(word) && m == Next(i, p)
    requires word in PATH_WORDS
    ensures i < m <= |s| && (StatementAt(c, s, i) == Wrong([p]) <==> Unclosed(s[m..]))
  {
    hide *;
    PathFinds(word);
    EarlyForms();
    if m <= |s| {
      StrWrong(c, s, m);
    }
    KeywordAlone(c, s, i, p, word, m, 1);
  }

  lemma TextMissing(c: Chars, s: string, i: nat, p: Piece, word: Word, m: nat)
    requires StandsOne(c, s, i, p) && p.token == Kw(word) && m == Next(i, p)
    requires word in LONG_TEXT_WORDS || word in SHORT_TEXT_WORDS
    ensures i < m <= |s| && (StatementAt(c, s, i) == Wrong([p]) <==> Unclosed(s[m..]))
  {
    hide *;
    TextFinds(word);
    LateForms();
    if m <= |s| {
      StrWrong(c, s, m);
    }
    KeywordAlone(c, s, i, p, word, m, 8);
  }

  lemma ValueMissing(c: Chars, s: string, i: nat, p: Piece, word: Word, m: nat)
    requires Usual(c) && StandsOne(c, s, i, p) && p.token == Kw(word) && m == Next(i, p)
    requires word in VALUE_WORDS
    ensures i < m <= |s| && (StatementAt(c, s, i) == Wrong([p]) <==> Unclosed(s[m..]))
  {
    hide *;
    ValueFinds(word);
    LateForms();
    if m <= |s| {
      TextWrong(c, s, m);
    }
    KeywordAlone(c, s, i, p, word, m, 6);
  }

  lemma BraceWrong(c: Chars, s: string, i: nat)
    requires i <= |s|
    ensures ArgAt(c, s, i, OpenBrace) == Wrong([]) <==> !("{" <= s[i..])
    ensures ArgAt(c, s, i, OpenBrace) != Wrong([]) ==> ArgAt(c, s, i, OpenBrace).pieces != []
  {
    hide KeywordAt;
    WordWrong(c, s, i, "{");
  }

  lemma StrWrong(c: Chars, s: string, i: nat)
    requires i <= |s|
    ensures ArgAt(c, s, i, AString) == Wrong([]) <==> Unclosed(s[i..])
    ensures ArgAt(c, s, i, AString) != Wrong([]) ==> ArgAt(c, s, i, AString).pieces != []
  {
    hide StringAt, Unclosed;
    StringWrong(c, s, i);
  }

  lemma ValueWrong(c: Chars, s: string, i: nat, words: seq<Word>)
    requires i <= |s|
    ensures ArgAt(c, s, i, OneOf(words)) == Wrong([]) <==> !StartsWith(s[i..], words)
    ensures ArgAt(c, s, i, OneOf(words)) != Wrong([]) ==> ArgAt(c, s, i, OneOf(words)).pieces != []
  {
    hide OneOfAt, StartsWith;
    OneOfWrong(c, s, i, words);
  }

  lemma DeviateMissing(c: Chars, s: string, i: nat, p: Piece, m: nat)
    requires StandsOne(c, s, i, p) && p.token == Kw("deviate") && m == Next(i, p)
    ensures i < m <= |s|
    ensures StatementAt(c, s, i) == Wrong([p]) <==>
            !StartsWith(s[m..], ["not-supported", "add", "replace", "delete"])
  {
    hide *;
    DeviateFinds();
    EarlyForms();
    if m <= |s| {
      DeviateWrong(c, s, m);
      HowStarts(s[m..]);
    }
    KeywordAlone(c, s, i, p, "deviate", m, 3);
  }

  lemma HowStarts(rest: string)
    ensures StartsWith(rest, ["not-supported", "add", "replace", "delete"]) <==>
            "not-supported" <= rest || StartsWith(rest, DEVIATIONS)
  {
    var all := ["not-supported", "add", "replace", "delete"];
    if k :| 0 <= k < |all| && all[k] <= rest && k > 0 {
      assert DEVIATIONS[if k == 1 then 1 else if k == 2 then 0 else 2] <= rest;
    }
    if k :| 0 <= k < |DEVIATIONS| && DEVIATIONS[k] <= rest {
      assert all[if k == 0 then 2 else if k == 1 then 1 else 3] <= rest;
    }
    if "not-supported" <= rest {
      assert all[0] <= rest;
    }
  }

  lemma ChoiceMissing(c: Chars, s: string, i: nat, p: Piece, word: Word, m: nat, k: nat, words: seq<Word>)
    requires StandsOne(c, s, i, p) && p.token == Kw(word) && m == Next(i, p) && Choices(word, k, words)
    ensures i < m <= |s| && (StatementAt(c, s, i) == Wrong([p]) <==> !StartsWith(s[m..], words))
  {
    hide *;
    ChoiceFinds(word, k, words);
    if m <= |s| {
      ValueWrong(c, s, m, words);
    }
    KeywordAlone(c, s, i, p, word, m, k) by { FormInRange(word, k); }
  }

  lemma FormInRange(word: string, k: nat)
    requires Finds(word, k)
    ensures k < |FORMS|
  {
  }

  lemma StatesStart(rest: string)
    ensures StartsWith(rest, ["current", "deprecated", "obsolete"]) <==> StartsWith(rest, STATES)
    ensures StartsWith(rest, ["true", "false"]) <==> StartsWith(rest, TRUTHS)
    ensures StartsWith(rest, ["system", "user"]) <==> StartsWith(rest, ORDERS)
  {
    hide StartsWith;
    SameStarts(rest, ["current", "deprecated", "obsolete"], STATES);
  }

  /** A statement fails just behind its keyword if and only if what follows cannot be the argument of the keyword. */
  lemma MissingArgument(c: Chars, s: string, i: nat, p: Piece, word: Word, m: nat)
    requires Usual(c) && StandsOne(c, s, i, p) && p.token == Kw(word) && word in KEYWORDS && m == Next(i, p)
    ensures i < m <= |s| && (StatementAt(c, s, i) == Wrong([p]) <==> NoArgument(c, word, s[m..]))
  {
    InGroups(word);
    hide Usual, StandsOne, Next, StatementAt, NameChar, Unclosed, Sign, StartsWith, KEYWORDS;
    hide BLOCK_WORDS, NAMED_WORDS, LONG_TEXT_WORDS, SHORT_TEXT_WORDS, VALUE_WORDS, PATH_WORDS, BOOLEAN_WORDS;
    hide COUNT_WORDS, BODY_WORDS;
    StandsFits(c, s, i, p);
    StatesStart(s[m..]);
    Groups(c, s, i, p, word, m);
  }

  /** The same for each kind of keyword. */
  lemma Groups(c: Chars, s: string, i: nat, p: Piece, word: Word, m: nat)
    requires Usual(c) && StandsOne(c, s, i, p) && p.token == Kw(word) && m == Next(i, p) && m <= |s|
    ensures var wrong := StatementAt(c, s, i) == Wrong([p]);
            && (word in BLOCK_WORDS || word in NAMED_WORDS ==> (wrong <==> m == |s| || !NameChar(c, s[m])))
            && (word in BODY_WORDS ==> (wrong <==> !("{" <= s[m..])))
            && (word == "deviate" ==>
                  (wrong <==> !StartsWith(s[m..], ["not-supported", "add", "replace", "delete"])))
            && (word in BOOLEAN_WORDS ==> (wrong <==> !StartsWith(s[m..], TRUTHS)))
            && (word == "status" ==> (wrong <==> !StartsWith(s[m..], STATES)))
            && (word == "ordered-by" ==> (wrong <==> !StartsWith(s[m..], ORDERS)))
            && (word in COUNT_WORDS ==>
                  (wrong <==> !("unbounded" <= s[m..]) && (m == |s| || !(c.digit(s[m]) || Sign(s[m])))))
            && (word in PATH_WORDS || word in LONG_TEXT_WORDS || word in SHORT_TEXT_WORDS || word in VALUE_WORDS ==>
                  (wrong <==> Unclosed(s[m..])))
  {
    hide *;
    if word in BLOCK_WORDS {
      BlockMissing(c, s, i, p, word, m);
    }
    if word in NAMED_WORDS {
      NamedMissing(c, s, i, p, word, m);
    }
    if word in BODY_WORDS {
      BodyMissing(c, s, i, p, word, m);
    }
    if word == "deviate" {
      DeviateMissing(c, s, i, p, m);
    }
    if word in BOOLEAN_WORDS {
      ChoiceWord(word, 7, TRUTHS);
      ChoiceMissing(c, s, i, p, word, m, 7, TRUTHS);
    }
    if word == "status" {
      ChoiceWord(word, 5, STATES);
      ChoiceMissing(c, s, i, p, word, m, 5, STATES);
    }
    if word == "ordered-by" {
      ChoiceWord(word, 9, ORDERS);
      ChoiceMissing(c, s, i, p, word, m, 9, ORDERS);
    }
    if word in COUNT_WORDS {
      CountMissing(c, s, i, p, word, m);
    }
    if word in PATH_WORDS {
      PathMissing(c, s, i, p, word, m);
    }
    if word in LONG_TEXT_WORDS || word in SHORT_TEXT_WORDS {
      TextMissing(c, s, i, p, word, m);
    }
    if word in VALUE_WORDS {
      ValueMissing(c, s, i, p, word, m);
    }
  }

  // ---------- in a whole text ----------

  /** Statements and one more keyword, with gaps; `rest` begins with neither a blank nor a comment. */
  predicate IsBegun(c: Chars, s: string, sts: seq<Stmt>, word: string, lead: Gap, gaps: seq<Gap>, rest: string) {
    var toks := AllTokens(sts) + [Kw(word)];
    && |gaps| == |toks| && GoodGap(c, lead) && Spaced(c, toks, gaps)
    && s == GapText(lead) + Print(toks, gaps) + rest
    && Continues(c, s, |s| - |rest|, toks, gaps)
  }

  lemma BegunSolid(c: Chars, sts: seq<Stmt>, word: string)
    requires Usual(c) && AllGood(c, sts) && word in KEYWORDS
    ensures AllSolid(c, AllTokens(sts) + [Kw(word)])
  {
    InGroups(word);
    hide *;
    StatementsSolid(c, sts);
    WordSolid(c, word);
    SolidBoth(c, AllTokens(sts), [Kw(word)]);
  }

  lemma BegunPlaced(s: string, a: string, b: string, rest: string)
    requires s == a + b + rest
    ensures At(s, 0, a) && At(s, |a|, b) && |a| + |b| == |s| - |rest| && s[|s| - |rest|..] == rest
  {
    assert s == a + (b + rest);
  }

  /** The statements before have been read, and the last piece is the keyword. */
  lemma BegunRead(c: Chars, s: string, sts: seq<Stmt>, word: string, lead: Gap, gaps: seq<Gap>, rest: string)
    returns (front: seq<Piece>, p: Piece, i: nat)
    requires Usual(c) && AllGood(c, sts) && word in KEYWORDS && IsBegun(c, s, sts, word, lead, gaps, rest)
    ensures PiecesOf(AllTokens(sts) + [Kw(word)], gaps) == front + [p]
    ensures StandsOne(c, s, i, p) && p.token == Kw(word) && Next(i, p) <= |s| && s[Next(i, p)..] == rest
    ensures i <= |s| && Text(c, s) == Behind(front, TextFrom(c, s, i))
  {
    hide Usual, AllGood, AllTokens, Print, PiecesOf, GoodGap, Spaced, GapText, SkipFrom, TextFrom, Solid, KEYWORDS, Kw;
    hide Stands, StandsOne, Next, EndOf, Are, At, StatementAt, MayFollow;
    var toks, first := AllTokens(sts) + [Kw(word)], |GapText(lead)|;
    var ps := PiecesOf(toks, gaps);
    BegunPlaced(s, GapText(lead), Print(toks, gaps), rest);
    BegunSolid(c, sts, word);
    PrintStands(c, s, first, toks, gaps, |s| - |rest|);
    PiecesAre(toks, gaps);
    GapSkipped(c, s, 0, lead, first);
    AreBoth(ps, AllTokens(sts), [Kw(word)]);
    var n := |AllTokens(sts)|;
    front := ps[..n];
    StandsBoth(c, s, first, front, ps[n..]);
    i := EndOf(first, front);
    SingleToken(c, s, i, ps[n..], Kw(word));
    p := ps[n..][0];
    StandsFits(c, s, i, p);
    StatementsRead(c, s, first, front, sts, 0);
  }

  /** A single token is read as a statement only if it closes a block. */
  lemma OnlyClose(c: Chars, s: string, i: nat, p: Piece)
    requires i <= |s| && StatementAt(c, s, i).Read? && StatementAt(c, s, i).pieces == [p]
    ensures p.token.val !in KEYWORDS
  {
    hide StatementAt, KEYWORDS;
    var st := StatementIs(c, s, i);
    assert StmtTokens(st)[0] == p.token && |StmtTokens(st)| == 1;
    CloseAlone(c, st);
  }

  lemma CloseAlone(c: Chars, st: Stmt)
    requires IsStatement(c, st) && |StmtTokens(st)| == 1
    ensures StmtTokens(st)[0].val !in KEYWORDS
  {
    assert st == Close;
    CloseIsNoKeyword();
  }

  lemma CloseIsNoKeyword()
    ensures "}" !in KEYWORDS
  {
    if "}" in KEYWORDS {
      InGroups("}");
      WordsAreLettered("}");
      assert false;
    }
  }

  /**
    A text that goes on with a keyword fails just behind it if and only if what follows cannot be the argument of the
    keyword.
  */
  lemma KeywordFails(c: Chars, s: string, sts: seq<Stmt>, word: string, lead: Gap, gaps: seq<Gap>, rest: string)
    requires Usual(c) && AllGood(c, sts) && word in KEYWORDS && IsBegun(c, s, sts, word, lead, gaps, rest)
    ensures Text(c, s) == Wrong(PiecesOf(AllTokens(sts) + [Kw(word)], gaps)) <==> NoArgument(c, word, rest)
  {
    hide Usual, AllGood, AllTokens, PiecesOf, IsBegun, KEYWORDS, StandsOne, Next, Text, StatementAt, NoArgument;
    var front, p, i := BegunRead(c, s, sts, word, lead, gaps, rest);
    KeywordWord(word);
    MissingArgument(c, s, i, p, word, Next(i, p));
    var first, all := StatementAt(c, s, i), TextFrom(c, s, i);
    if first.Read? && all == Wrong([p]) {
      assert first.pieces == [p] by { StatementNonempty(c, s, i); }
      OnlyClose(c, s, i, p);
      assert false;
    }
    BehindWrong(front, all, [p]);
  }

  lemma BehindWrong(front: seq<Piece>, l: Lexed, ps: seq<Piece>)
    ensures Behind(front, l) == Wrong(front + ps) <==> l == Wrong(ps)
  {
    if front + l.pieces == front + ps {
      assert (front + l.pieces)[|front|..] == l.pieces && (front + ps)[|front|..] == ps;
    }
  }

  lemma StatementNonempty(c: Chars, s: string, i: nat)
    requires i <= |s| && StatementAt(c, s, i).Read?
    ensures StatementAt(c, s, i).pieces != []
  {
    hide Ended;
    StatementEnded(c, s, i);
    EndedNonempty(StatementAt(c, s, i).pieces);
  }

  lemma EndedNonempty(ps: seq<Piece>)
    requires Ended(ps)
    ensures ps != []
  {
  }

  lemma KeywordWord(w: string)
    requires w in KEYWORDS
    ensures w != ""
  {
    InGroups(w);
    WordsAreLettered(w);
  }

  // ---------- names that begin with a keyword ----------

  lemma KeywordForm(w: string) returns (k: nat)
    requires w in KEYWORDS
    ensures Finds(w, k) && w != ""
  {
    InGroups(w);
    hide *;
    KeywordWord(w);
    if w in BLOCK_WORDS {
      BlockFinds(w);
      k := 0;
    } else if w in PATH_WORDS {
      PathFinds(w);
      k := 1;
    } else if w in BODY_WORDS {
      BodyFinds(w);
      k := 2;
    } else if w == "deviate" {
      DeviateFinds();
      k := 3;
    } else if w in NAMED_WORDS {
      NamedFinds(w);
      k := 4;
    } else if w == "status" {
      StatusFinds();
      k := 5;
    } else if w in VALUE_WORDS {
      ValueFinds(w);
      k := 6;
    } else if w in BOOLEAN_WORDS {
      BooleanFinds(w);
      k := 7;
    } else if w in LONG_TEXT_WORDS || w in SHORT_TEXT_WORDS {
      TextFinds(w);
      k := 8;
    } else if w == "ordered-by" {
      OrderFinds();
      k := 9;
    } else {
      CountFinds(w);
      k := 10;
    }
  }

  lemma {:induction false} KeywordFirst(c: Chars, s: string, i: nat, m: nat, k: nat, w: Word)
    requires i <= |s| && m <= k < |FORMS| && w in FORMS[k].words && At(s, i, w)
    ensures FormsAt(c, s, i, FORMS[m..]).pieces != []
    ensures FormsAt(c, s, i, FORMS[m..]).pieces[0].token.typ.Keyword?
    decreases k - m
  {
    hide FORMS, FormsAt, OneOfAt, ArgsAt, ExtensionAt, At;
    FormsStep(c, s, i, FORMS, m);
    OneOfIs(c, s, i, FORMS[m].words);
    if OneOfAt(c, s, i, FORMS[m].words).Wrong? {
      KeywordFirst(c, s, i, m + 1, k, w);
    }
  }

  /** Where a keyword is next, even if it is only the beginning of a name, no extension statement is read. */
  lemma NamesOfKeywords(c: Chars, s: string, i: nat, w: string)
    requires i <= |s| && w in KEYWORDS && w <= s[i..]
    ensures StatementAt(c, s, i).pieces != [] && StatementAt(c, s, i).pieces[0].token.typ.Keyword?
  {
    hide FORMS, FormsAt, StatementAt, KEYWORDS, AllDiffer, Differs;
    var k := KeywordForm(w);
    AtIs(s, i, w);
    var j :| FirstOf(FORMS[k].words, w, j);
    StatementStarts(c, s, i);
    KeywordFirst(c, s, i, 0, k, w);
  }

  // ---------- extension statements that are left open ----------

  /** The text ends among the arguments of an extension. */
  lemma {:induction false} WordsEndless(c: Chars, s: string, i: nat, ps: seq<Piece>, es: seq<Extra>)
    requires Usual(c) && Stands(c, s, i, ps) && Are(ps, ExtrasTokens(es)) && Unjoined(c, es) && EndOf(i, ps) == |s|
    ensures i <= |s| && WordsAt(c, s, i) == Hangs(ps, false)
    decreases |es|
  {
    hide StandsOne, Next, EndOf, Stands, Are, IsExtra, CleanExtra, Usual, At, ExtraTokens, WordsAt, OneOfAt, Unjoined;
    StandsEnd(c, s, i, ps);
    WordsStep(c, s, i);
    if es == [] {
      NoPieces(ps);
      EmptyEnd(i);
    } else {
      AreBoth(ps, ExtraTokens(es[0]), ExtrasTokens(es[1..]));
      var n := |ExtraTokens(es[0])|;
      var a, b := ps[..n], ps[n..];
      StandsBoth(c, s, i, a, b);
      UnjoinedRest(c, es);
      ExtraBegins(c, s, i, a, es[0]);
      if es[0].ExtraText? && EndsQuoted(es[0].str) {
        NoMorePlus(c, s, EndOf(i, a), b, es[1..]);
      }
      ExtraArg(c, s, i, a, es[0]);
      OneOfOther(c, s, i, ENDS);
      WordsEndless(c, s, EndOf(i, a), b, es[1..]);
    }
  }

  lemma NoMorePlus(c: Chars, s: string, i: nat, ps: seq<Piece>, es: seq<Extra>)
    requires Usual(c) && Stands(c, s, i, ps) && Are(ps, ExtrasTokens(es)) && Unjoined(c, es) && EndOf(i, ps) == |s|
    requires es != [] && es[0].ExtraNumber? && es[0].number != "" ==> es[0].number[0] != '+'
    ensures !At(s, i, "+")
  {
    hide StandsOne, Next, EndOf, Stands, Are, IsExtra, CleanExtra, Usual, At, ExtraTokens;
    AtFirst(s, i, "+");
    if es == [] {
      NoPieces(ps);
      EmptyEnd(i);
    } else {
      AreBoth(ps, ExtraTokens(es[0]), ExtrasTokens(es[1..]));
      var n := |ExtraTokens(es[0])|;
      StandsBoth(c, s, i, ps[..n], ps[n..]);
      UnjoinedRest(c, es);
      ExtraBegins(c, s, i, ps[..n], es[0]);
    }
  }

  /** Statements, and an extension statement without its end. */
  predicate IsOpen(c: Chars, s: string, sts: seq<Stmt>, name: string, es: seq<Extra>, lead: Gap, gaps: seq<Gap>) {
    var toks := AllTokens(sts) + ([Token(ExtensionToken, name)] + ExtrasTokens(es));
    |gaps| == |toks| && GoodGap(c, lead) && Spaced(c, toks, gaps) && s == GapText(lead) + Print(toks, gaps)
  }

  /** A text that ends within an extension statement is never left: empty strings are pushed for ever. */
  lemma OpenExtensionHangs(c: Chars, s: string, sts: seq<Stmt>, name: string, es: seq<Extra>, lead: Gap,
                           gaps: seq<Gap>)
    requires Usual(c) && AllGood(c, sts) && PrefixedName(c, name) && NoKeyword(name) && Unjoined(c, es)
    requires IsOpen(c, s, sts, name, es, lead, gaps)
    ensures Text(c, s).Hangs? && !Text(c, s).crash
    ensures Are(Text(c, s).pieces, AllTokens(sts) + ([Token(ExtensionToken, name)] + ExtrasTokens(es)))
  {
    hide Usual, AllGood, AllTokens, Print, PiecesOf, GoodGap, Spaced, GapText, SkipFrom, TextFrom, Solid, NoKeyword;
    hide Stands, StandsOne, Next, EndOf, Are, At, StatementAt, MayFollow, ExtrasTokens, Unjoined, ExtensionAt, AllSolid;
    var first, rest := Token(ExtensionToken, name), ExtrasTokens(es);
    var toks, i := AllTokens(sts) + ([first] + rest), |GapText(lead)|;
    var ps := PiecesOf(toks, gaps);
    TextPlaced(s, GapText(lead), Print(toks, gaps));
    OpenSolid(c, sts, name, es);
    EndIsSolid(c, s);
    PrintStands(c, s, i, toks, gaps, |s|);
    PiecesAre(toks, gaps);
    GapSkipped(c, s, 0, lead, i);
    AreBoth(ps, AllTokens(sts), [first] + rest);
    var n := |AllTokens(sts)|;
    var front, back := ps[..n], ps[n..];
    StandsBoth(c, s, i, front, back);
    StatementsRead(c, s, i, front, sts, 0);
    OpenRead(c, s, EndOf(i, front), back, name, es);
  }

  lemma OpenSolid(c: Chars, sts: seq<Stmt>, name: string, es: seq<Extra>)
    requires Usual(c) && AllGood(c, sts) && PrefixedName(c, name) && Unjoined(c, es)
    ensures AllSolid(c, AllTokens(sts) + ([Token(ExtensionToken, name)] + ExtrasTokens(es)))
  {
    hide Usual, AllSolid, AllGood, AllTokens, ExtrasTokens, Unjoined, Name;
    StatementsSolid(c, sts);
    NameSolid(c, Token(ExtensionToken, name));
    ExtrasSolid(c, es);
    SolidBoth(c, [Token(ExtensionToken, name)], ExtrasTokens(es));
    SolidBoth(c, AllTokens(sts), [Token(ExtensionToken, name)] + ExtrasTokens(es));
  }

  lemma OpenRead(c: Chars, s: string, i: nat, ps: seq<Piece>, name: string, es: seq<Extra>)
    requires Usual(c) && Stands(c, s, i, ps) && Are(ps, [Token(ExtensionToken, name)] + ExtrasTokens(es))
    requires PrefixedName(c, name) && NoKeyword(name) && Unjoined(c, es) && EndOf(i, ps) == |s|
    ensures i < |s| && TextFrom(c, s, i) == Hangs(ps, false)
  {
    hide StandsOne, Next, EndOf, Stands, Are, Usual, ExtrasTokens, WordsAt, Unjoined, StatementAt, IdentAt;
    var first := Token(ExtensionToken, name);
    AreBoth(ps, [first], ExtrasTokens(es));
    var p, b := ps[0], ps[1..];
    assert ps[..1] == [p];
    StandsBoth(c, s, i, [p], b);
    SingleToken(c, s, i, [p], first);
    NameIsNoKeyword(c, s, i, p);
    PrefixedRead(c, s, i, p);
    StandsFits(c, s, i, p);
    WordsEndless(c, s, Next(i, p), b, es);
    assert [p] + b == ps;
  }
}
