/**
  How single tokens are read: where one stands in the text and what follows cannot be taken for more of it, the lexer
  takes exactly that token.
*/
module LexerTokens {
  import opened Wrappers
  import opened LexerText
  import opened LexerGrammar

  /** The token stands at `i`, nothing behind it can be taken for more of it, and then all fillers are skipped. */
  ghost predicate StandsOne(c: Chars, s: string, i: nat, p: Piece) {
    && p.token.val != "" && Fills(c, s, i, p, Next(i, p))
    && (i + |p.token.val| < |s| ==> MayFollow(c, p.token, s[i + |p.token.val|]))
  }

  /** The tokens stand one behind the other from `i` on. */
  ghost predicate Stands(c: Chars, s: string, i: nat, ps: seq<Piece>)
    decreases |ps|
  {
    i <= |s| && (ps != [] ==> StandsOne(c, s, i, ps[0]) && Stands(c, s, Next(i, ps[0]), ps[1..]))
  }

  /** Where they end. */
  function EndOf(i: nat, ps: seq<Piece>): nat
    decreases |ps|
  {
    if ps == [] then i else EndOf(Next(i, ps[0]), ps[1..])
  }

  /** The pieces have these tokens. */
  predicate Are(ps: seq<Piece>, toks: seq<Token>) {
    |ps| == |toks| && forall k :: 0 <= k < |ps| ==> ps[k].token == toks[k]
  }

  lemma StandsFits(c: Chars, s: string, i: nat, p: Piece)
    requires StandsOne(c, s, i, p)
    ensures i < i + |p.token.val| <= Next(i, p) <= |s|
  {
  }

  lemma {:induction false} StandsBoth(c: Chars, s: string, i: nat, a: seq<Piece>, b: seq<Piece>)
    requires Stands(c, s, i, a + b)
    ensures Stands(c, s, i, a) && Stands(c, s, EndOf(i, a), b)
    ensures EndOf(i, a + b) == EndOf(EndOf(i, a), b)
    ensures i <= EndOf(i, a) <= |s| && (a != [] ==> i < EndOf(i, a))
    decreases |a|
  {
    hide StandsOne, Next;
    if a == [] {
      assert a + b == b;
    } else {
      assert (a + b)[1..] == a[1..] + b;
      StandsFits(c, s, i, a[0]);
      StandsBoth(c, s, Next(i, a[0]), a[1..], b);
    }
  }

  lemma StandsEnd(c: Chars, s: string, i: nat, ps: seq<Piece>)
    requires Stands(c, s, i, ps)
    ensures i <= EndOf(i, ps) <= |s|
  {
    hide *;
    assert ps + [] == ps;
    StandsBoth(c, s, i, ps, []);
  }

  lemma StandsSingle(c: Chars, s: string, i: nat, p: Piece)
    ensures Stands(c, s, i, [p]) ==> StandsOne(c, s, i, p)
    ensures EndOf(i, [p]) == Next(i, p)
  {
    assert [p][1..] == [];
  }

  lemma AreBoth(ps: seq<Piece>, a: seq<Token>, b: seq<Token>)
    requires Are(ps, a + b)
    ensures ps == ps[..|a|] + ps[|a|..] && Are(ps[..|a|], a) && Are(ps[|a|..], b)
  {
    forall k | 0 <= k < |b| ensures ps[|a|..][k].token == b[k] {
      assert (a + b)[|a| + k] == b[k];
    }
    forall k | 0 <= k < |a| ensures ps[..|a|][k].token == a[k] {
      assert (a + b)[k] == a[k];
    }
  }

  /** What is taken there is the token with what is skipped behind it. */
  lemma TakenIs(c: Chars, s: string, i: nat, p: Piece)
    requires StandsOne(c, s, i, p)
    ensures i + |p.token.val| <= |s|
    ensures Taken(c, s, p.token.typ, i, i + |p.token.val|) == Read([p], Next(i, p))
  {
    hide SkipFrom, MayFollow;
    assert Token(p.token.typ, s[i..i + |p.token.val|]) == p.token;
  }

  lemma CharAt(c: Chars, s: string, i: nat, p: Piece, k: nat)
    requires StandsOne(c, s, i, p) && k < |p.token.val|
    ensures i + k < |s| && s[i + k] == p.token.val[k]
  {
    hide SkipFrom, MayFollow;
    var mid := i + |p.token.val|;
    assert s[i..mid][k] == s[i + k];
  }

  lemma CharBehind(c: Chars, s: string, i: nat, p: Piece)
    requires StandsOne(c, s, i, p)
    ensures var mid := i + |p.token.val|; mid <= |s| && (mid < |s| ==> MayFollow(c, p.token, s[mid]))
    ensures s[i..i + |p.token.val|] == p.token.val
  {
  }

  // ---------- keywords ----------

  lemma AtFirst(s: string, i: nat, w: Word)
    ensures At(s, i, w) ==> i < |s| && s[i] == w[0]
  {
    if At(s, i, w) {
      assert s[i..i + |w|][0] == s[i];
    }
  }

  lemma KeywordRead(c: Chars, s: string, i: nat, p: Piece, w: Word)
    requires StandsOne(c, s, i, p) && p.token == Kw(w)
    ensures i <= |s| && At(s, i, w) && KeywordAt(c, s, i, w) == Read([p], Next(i, p))
  {
    hide Taken, Next, MayFollow;
    TakenIs(c, s, i, p);
  }

  lemma {:induction false} OneOfRead(c: Chars, s: string, i: nat, words: seq<Word>, k: nat, p: Piece)
    requires StandsOne(c, s, i, p) && k < |words| && p.token == Kw(words[k])
    requires forall j :: 0 <= j < k ==> !At(s, i, words[j])
    ensures i <= |s| && OneOfAt(c, s, i, words) == Read([p], Next(i, p))
    decreases k
  {
    hide StandsOne, KeywordAt, Next, At;
    KeywordRead(c, s, i, p, words[k]);
    if k > 0 {
      assert !At(s, i, words[0]);
      forall j | 0 <= j < k - 1 ensures !At(s, i, words[1..][j]) {
        assert words[1..][j] == words[j + 1];
      }
      OneOfRead(c, s, i, words[1..], k - 1, p);
    }
  }

  lemma {:induction false} OneOfMissed(c: Chars, s: string, i: nat, words: seq<Word>)
    requires i <= |s| && forall j :: 0 <= j < |words| ==> !At(s, i, words[j])
    ensures OneOfAt(c, s, i, words) == Wrong([])
    decreases |words|
  {
    hide At;
    if words != [] {
      forall j | 0 <= j < |words| - 1 ensures !At(s, i, words[1..][j]) {
        assert words[1..][j] == words[j + 1];
      }
      OneOfMissed(c, s, i, words[1..]);
    }
  }

  /** Words that begin with different characters cannot be mistaken for each other. */
  lemma OneOfApart(c: Chars, s: string, i: nat, words: seq<Word>, k: nat, p: Piece)
    requires StandsOne(c, s, i, p) && k < |words| && p.token == Kw(words[k])
    requires forall j :: 0 <= j < k ==> words[j][0] != words[k][0]
    ensures i <= |s| && OneOfAt(c, s, i, words) == Read([p], Next(i, p))
  {
    hide StandsOne, OneOfAt, Next, At;
    StandsFits(c, s, i, p);
    CharAt(c, s, i, p, 0);
    forall j | 0 <= j < k ensures !At(s, i, words[j]) {
      AtFirst(s, i, words[j]);
    }
    OneOfRead(c, s, i, words, k, p);
  }

  lemma OneOfOther(c: Chars, s: string, i: nat, words: seq<Word>)
    requires i <= |s| && (i < |s| ==> forall j :: 0 <= j < |words| ==> words[j][0] != s[i])
    ensures OneOfAt(c, s, i, words) == Wrong([])
  {
    hide OneOfAt, At;
    forall j | 0 <= j < |words| ensures !At(s, i, words[j]) {
      AtFirst(s, i, words[j]);
    }
    OneOfMissed(c, s, i, words);
  }

  lemma EndRead(c: Chars, s: string, i: nat, p: Piece, brace: bool)
    requires StandsOne(c, s, i, p) && p.token == EndToken(brace)
    ensures i <= |s| && ArgAt(c, s, i, End) == Read([p], Next(i, p))
  {
    hide StandsOne, OneOfAt, Next;
    OneOfApart(c, s, i, ENDS, if brace then 1 else 0, p);
  }

  lemma BraceRead(c: Chars, s: string, i: nat, p: Piece)
    requires StandsOne(c, s, i, p) && p.token == Kw("{")
    ensures i <= |s| && ArgAt(c, s, i, OpenBrace) == Read([p], Next(i, p))
  {
    hide StandsOne, KeywordAt, Next;
    KeywordRead(c, s, i, p, "{");
  }

  // ---------- names ----------

  lemma IdentIs(c: Chars, x: char)
    ensures IsIdent(c, x) == NameChar(c, x)
  {
  }

  lemma NameEnds(c: Chars, s: string, i: nat, p: Piece)
    requires StandsOne(c, s, i, p) && Name(c, p.token.val) && (p.token.typ.IdentToken? || p.token.typ.ExtensionToken?)
    ensures i <= |s| && IdentEnd(c, s, i) == i + |p.token.val|
  {
    hide StandsOne, IdentEnd, IsIdent, NameChar;
    var end := i + |p.token.val|;
    CharBehind(c, s, i, p);
    forall k | i <= k < end ensures IsIdent(c, s[k]) {
      CharAt(c, s, i, p, k - i);
      IdentIs(c, s[k]);
      assert NameChar(c, p.token.val[k - i]);
    }
    if end < |s| {
      IdentIs(c, s[end]);
    }
  }

  lemma NameRead(c: Chars, s: string, i: nat, p: Piece)
    requires StandsOne(c, s, i, p) && Name(c, p.token.val) && p.token.typ.IdentToken?
    ensures i <= |s| && ArgAt(c, s, i, AnIdent) == Read([p], Next(i, p))
  {
    hide StandsOne, IdentEnd, Taken, Next, Name;
    NameEnds(c, s, i, p);
    TakenIs(c, s, i, p);
    StandsFits(c, s, i, p);
  }

  lemma PrefixedRead(c: Chars, s: string, i: nat, p: Piece)
    requires StandsOne(c, s, i, p) && PrefixedName(c, p.token.val) && p.token.typ.ExtensionToken?
    ensures i <= |s| && IdentAt(c, s, i, true) == Read([p], Next(i, p))
  {
    hide StandsOne, IdentEnd, Taken, Next, Name;
    NameEnds(c, s, i, p);
    TakenIs(c, s, i, p);
    StandsFits(c, s, i, p);
    CharBehind(c, s, i, p);
    assert IsPrefixed(p.token.val);
  }

  // ---------- numbers ----------

  predicate NumberChar(digit: char -> bool, x: char, decimal: bool, begun: bool) {
    digit(x) || (!begun && Sign(x)) || (begun && decimal && x == '.')
  }

  lemma {:induction false} NumberGoes(digit: char -> bool, s: string, i: nat, begun: bool, decimal: bool, end: nat)
    requires i <= end <= |s|
    requires forall k :: i <= k < end ==> NumberChar(digit, s[k], decimal, begun || k > i)
    requires end < |s| ==> !NumberChar(digit, s[end], decimal, begun || end > i)
    ensures NumberEnd(digit, s, i, begun, decimal) == end
    decreases end - i
  {
    if i < end {
      assert NumberChar(digit, s[i], decimal, begun);
      NumberGoes(digit, s, i + 1, true, decimal, end);
    }
  }

  lemma NumberRead(c: Chars, s: string, i: nat, p: Piece, decimal: bool)
    requires StandsOne(c, s, i, p) && NumberText(c, p.token.val, decimal) && p.token.typ.NumberToken?
    ensures i <= |s| && NumberAt(c, s, i, decimal) == Read([p], Next(i, p))
  {
    hide StandsOne, NumberEnd, Taken, Next;
    TakenIs(c, s, i, p);
    StandsFits(c, s, i, p);
    CharBehind(c, s, i, p);
    var end := i + |p.token.val|;
    forall k | i <= k < end ensures NumberChar(c.digit, s[k], decimal, k > i) {
      CharAt(c, s, i, p, k - i);
    }
    NumberGoes(c.digit, s, i, false, decimal, end);
  }

  lemma NoNumberAt(c: Chars, s: string, i: nat, decimal: bool)
    requires i <= |s| && (i < |s| ==> !c.digit(s[i]) && !Sign(s[i]))
    ensures NumberAt(c, s, i, decimal) == Wrong([])
  {
  }

  lemma IntegerRead(c: Chars, s: string, i: nat, p: Piece)
    requires Usual(c) && StandsOne(c, s, i, p)
    requires p.token == Kw("unbounded") || (NumberText(c, p.token.val, false) && p.token.typ.NumberToken?)
    ensures i <= |s| && ArgAt(c, s, i, Integer) == Read([p], Next(i, p))
  {
    hide StandsOne, KeywordAt, NumberAt, Next;
    if p.token == Kw("unbounded") {
      KeywordRead(c, s, i, p, "unbounded");
    } else {
      CharAt(c, s, i, p, 0);
      AtFirst(s, i, "unbounded");
      assert KeyChar('u');
      NoKeywordAt(c, s, i, "unbounded");
      NumberRead(c, s, i, p, false);
    }
  }

  lemma NoKeywordAt(c: Chars, s: string, i: nat, w: Word)
    requires i <= |s| && !At(s, i, w)
    ensures KeywordAt(c, s, i, w) == Wrong([])
  {
  }

  // ---------- strings ----------

  lemma {:induction false} QuotedGoes(space: char -> bool, s: string, i: nat, quote: char, t: string)
    requires i + |t| < |s| && s[i..i + |t|] == t && Within(quote, t) && s[i + |t|] == quote
    requires quote == '\"' || quote == '\''
    ensures StringEnd(space, s, i, quote, true) == Some(i + |t| + 1)
    decreases |t|
  {
    if t != "" {
      assert s[i] == t[0];
      var n := if quote == '\"' && t[0] == '\\' then 2 else 1;
      assert s[i + n..i + n + |t[n..]|] == t[n..];
      QuotedGoes(space, s, i + n, quote, t[n..]);
    }
  }

  lemma {:induction false} BareGoes(space: char -> bool, s: string, i: nat, begin: char, end: nat)
    requires i <= end <= |s|
    requires forall k :: i <= k < end ==> !space(s[k]) && s[k] != ';' && s[k] != '{' && s[k] != EOF
    requires end < |s| ==> s[end] != EOF && (space(s[end]) || s[end] == ';' || s[end] == '{')
    ensures StringEnd(space, s, i, begin, false) == Some(end)
    decreases end - i
  {
    if i < end {
      BareGoes(space, s, i + 1, begin, end);
    }
  }

  predicate StringVal(c: Chars, t: string) {
    QuotedText(t) || BareText(c, t)
  }

  lemma Inner(s: string, i: nat, t: string)
    requires i + |t| <= |s| && s[i..i + |t|] == t && |t| > 1
    ensures s[i + 1..i + |t| - 1] == t[1..|t| - 1]
  {
    var a, b := s[i + 1..i + |t| - 1], t[1..|t| - 1];
    forall k | 0 <= k < |a| ensures a[k] == b[k] {
      assert s[i..i + |t|][k + 1] == t[k + 1];
    }
  }

  lemma QuotedEnds(c: Chars, s: string, i: nat, t: string)
    requires i + |t| <= |s| && s[i..i + |t|] == t && QuotedText(t)
    ensures FirstString(c, s, i) == Some(i + |t|) && Quoted(s, i)
  {
    hide Within, StringEnd;
    var inner := t[1..|t| - 1];
    assert s[i] == t[0];
    Inner(s, i, t);
    assert s[i + |t| - 1] == t[|t| - 1];
    QuotedGoes(c.space, s, i + 1, t[0], inner);
  }

  lemma BareEnds(c: Chars, s: string, i: nat, t: string)
    requires Proper(c) && i + |t| <= |s| && s[i..i + |t|] == t && BareText(c, t)
    requires i + |t| < |s| ==> c.space(s[i + |t|]) || s[i + |t|] == ';' || s[i + |t|] == '{'
    ensures FirstString(c, s, i) == Some(i + |t|) && !Quoted(s, i)
  {
    hide StringEnd;
    forall k | i <= k < i + |t| ensures s[k] == t[k - i] {
      assert s[i..i + |t|][k - i] == s[k];
    }
    BareGoes(c.space, s, i + 1, s[i], i + |t|);
  }

  lemma FirstRead(c: Chars, s: string, i: nat, p: Piece)
    requires Proper(c) && StandsOne(c, s, i, p) && p.token.typ.StringToken? && StringVal(c, p.token.val)
    ensures i <= |s| && FirstAt(c, s, i) == Read([p], Next(i, p)) && (Quoted(s, i) <==> QuotedText(p.token.val))
  {
    hide StandsOne, Taken, Next, FirstString, Within;
    TakenIs(c, s, i, p);
    CharBehind(c, s, i, p);
    if QuotedText(p.token.val) {
      QuotedEnds(c, s, i, p.token.val);
    } else {
      BareEnds(c, s, i, p.token.val);
    }
  }

  /** The string with those that are joined to it, if no other `+` follows. */
  lemma {:induction false} StringRead(c: Chars, s: string, i: nat, ps: seq<Piece>, str: Str)
    requires Proper(c) && Stands(c, s, i, ps) && Are(ps, StrTokens(str)) && IsStr(str) && CleanStr(c, str)
    requires EndsQuoted(str) ==> !At(s, EndOf(i, ps), "+")
    ensures i < EndOf(i, ps) <= |s| && StringAt(c, s, i) == Read(ps, EndOf(i, ps))
    decreases str
  {
    hide StandsOne, FirstAt, KeywordAt, Next, At, Stands, EndOf, QuotedText, BareText, Are;
    PartsAre(ps, str);
    var first := [ps[0]];
    assert ps == first + ps[1..];
    StandsBoth(c, s, i, first, ps[1..]);
    StandsSingle(c, s, i, ps[0]);
    FirstRead(c, s, i, ps[0]);
    StringStep(c, s, i);
    match str
    case Bare(text) =>
      NotBoth(c, text);
      assert ps == first;
    case InQuotes(text) =>
      assert ps == first;
      StandsEnd(c, s, i, first);
      NoKeywordAt(c, s, EndOf(i, first), "+");
    case Joined(text, others) =>
      assert ps[1..] == [ps[1]] + ps[2..];
      StandsBoth(c, s, EndOf(i, first), [ps[1]], ps[2..]);
      StandsSingle(c, s, EndOf(i, first), ps[1]);
      KeywordRead(c, s, EndOf(i, first), ps[1], "+");
      StringRead(c, s, EndOf(EndOf(i, first), [ps[1]]), ps[2..], others);
      assert ps == first + ([ps[1]] + ps[2..]);
  }

  lemma NotBoth(c: Chars, t: string)
    requires BareText(c, t)
    ensures !QuotedText(t)
  {
  }

  /** The tokens of a string. */
  lemma PartsAre(ps: seq<Piece>, str: Str)
    requires Are(ps, StrTokens(str)) && IsStr(str)
    ensures |ps| > 0 && ps[0].token == Token(StringToken, str.text)
    ensures !str.Joined? ==> |ps| == 1
    ensures str.Joined? ==> |ps| > 1 && ps[1].token == Kw("+") && Are(ps[2..], StrTokens(str.others))
    ensures str.Joined? || str.InQuotes? ==> QuotedText(str.text)
  {
    hide QuotedText;
    if str.Joined? {
      var toks := StrTokens(str);
      assert forall k :: 0 <= k < |ps[2..]| ==> ps[2..][k].token == toks[k + 2];
    }
  }
}
