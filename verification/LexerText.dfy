/**
  What the lexer of YANG files (parser/lexer.go) makes of its input: the tokens of each statement, with the blanks and
  comments behind them, by the position at which the statement starts.
*/
module LexerText {
  import opened Wrappers

  type Word = w: string | w != "" witness "{"

  datatype TokenType = Keyword(word: string) | IdentToken | StringToken | NumberToken | ExtensionToken

  datatype Token = Token(typ: TokenType, val: string)

  /** A token, and what was skipped behind it. */
  datatype Piece = Piece(token: Token, skipped: string)

  /** Which characters are blanks, letters and digits. */
  datatype Chars = Chars(space: char -> bool, letter: char -> bool, digit: char -> bool)

  const EOF: char := '\0'

  /** The character that stands for the end of the input is none of them. */
  predicate Proper(c: Chars) {
    !c.space(EOF) && !c.letter(EOF) && !c.digit(EOF)
  }

  /**
    What has been read: some pieces that end at `end`; or an error behind them; or the lexer never returns, in
    particular because it reads beyond the input.
  */
  datatype Lexed =
    | Read(pieces: seq<Piece>, end: nat)
    | Wrong(pieces: seq<Piece>)
    | Hangs(pieces: seq<Piece>, crash: bool)

  // ---------- blanks and comments ----------

  predicate At(s: string, i: nat, w: string) {
    i + |w| <= |s| && s[i..i + |w|] == w
  }

  /** Where `w` comes next, from `i` on. */
  function Find(s: string, i: nat, w: string): (r: Option<nat>)
    requires i <= |s|
    ensures r.Some? ==> i <= r.value && At(s, r.value, w)
    decreases |s| - i
  {
    if At(s, i, w) then Some(i) else if i == |s| then None else Find(s, i + 1, w)
  }

  /** Where skipping ends; or it does not, or it reads beyond the input. */
  datatype Skip = Upto(end: nat) | Endless | OutOfRange

  /**
    Where blanks and comments that start at `i` end. A comment that is not closed is never left, one of the other
    kind without an end of line is read beyond the input.
  */
  function SkipFrom(space: char -> bool, s: string, i: nat): (r: Skip)
    requires i <= |s|
    ensures r.Upto? ==> i <= r.end <= |s|
    decreases |s| - i
  {
    if i < |s| && space(s[i]) then SkipFrom(space, s, i + 1)
    else if At(s, i, "/*") then
      var end := Find(s, i + 1, "*/");
      if end.None? then Endless else SkipFrom(space, s, end.value + 2)
    else if At(s, i, "//") then
      var end := Find(s, i + 1, "\n");
      if end.None? then OutOfRange else SkipFrom(space, s, end.value + 1)
    else Upto(i)
  }

  /** Where a number that starts at `i` ends; a sign comes first or not at all, a decimal point not first. */
  function NumberEnd(digit: char -> bool, s: string, i: nat, begun: bool, decimal: bool): (r: nat)
    requires i <= |s|
    ensures i <= r <= |s|
    decreases |s| - i
  {
    if i < |s| && (digit(s[i]) || (!begun && s[i] in "-+") || (begun && decimal && s[i] == '.')) then
      NumberEnd(digit, s, i + 1, true, decimal)
    else i
  }

  /** Where a string ends of which the part before `i` has been read; None if its closing quote is missing. */
  function StringEnd(space: char -> bool, s: string, i: nat, begin: char, quoted: bool): (r: Option<nat>)
    requires i <= |s|
    ensures r.Some? ==> i <= r.value <= |s|
    decreases |s| - i
  {
    if i == |s| then (if quoted then None else Some(i))
    else if s[i] == EOF then (if quoted then None else Some(i + 1))
    else if !quoted then
      if space(s[i]) || s[i] == ';' || s[i] == '{' then Some(i) else StringEnd(space, s, i + 1, begin, quoted)
    else if s[i] == '\\' && begin == '\"' then StringEnd(space, s, if i + 1 < |s| then i + 2 else i + 1, begin, quoted)
    else if s[i] == begin then Some(i + 1)
    else StringEnd(space, s, i + 1, begin, quoted)
  }

  lemma SkipStep(space: char -> bool, s: string, i: nat)
    requires i <= |s|
    ensures i < |s| && space(s[i]) ==> SkipFrom(space, s, i) == SkipFrom(space, s, i + 1)
    ensures !(i < |s| && space(s[i])) && At(s, i, "/*") ==>
              i < |s| && match Find(s, i + 1, "*/")
              case None => SkipFrom(space, s, i) == Endless
              case Some(e) => e + 2 <= |s| && SkipFrom(space, s, i) == SkipFrom(space, s, e + 2)
    ensures !(i < |s| && space(s[i])) && !At(s, i, "/*") && At(s, i, "//") ==>
              i < |s| && match Find(s, i + 1, "\n")
              case None => SkipFrom(space, s, i) == OutOfRange
              case Some(e) => e + 1 <= |s| && SkipFrom(space, s, i) == SkipFrom(space, s, e + 1)
    ensures !(i < |s| && space(s[i])) && !At(s, i, "/*") && !At(s, i, "//") ==> SkipFrom(space, s, i) == Upto(i)
  {
  }

  lemma FindStep(s: string, i: nat, w: string)
    requires i <= |s|
    ensures At(s, i, w) ==> Find(s, i, w) == Some(i) && i + |w| <= |s|
    ensures !At(s, i, w) ==> Find(s, i, w) == if i == |s| then None else Find(s, i + 1, w)
  {
  }

  // ---------- single tokens ----------

  predicate IsIdent(c: Chars, r: char) {
    c.digit(r) || c.letter(r) || r in "-_:."
  }

  predicate IsPrefixed(s: string) {
    |s| > 0 && exists i :: 0 <= i < |s| && s[i] == ':' && forall j :: 0 <= j < |s| && s[j] == ':' ==> j == i
  }

  function IdentEnd(c: Chars, s: string, i: nat): (r: nat)
    requires i <= |s|
    ensures i <= r <= |s|
    ensures forall j :: i <= j < r ==> IsIdent(c, s[j])
    ensures r < |s| ==> !IsIdent(c, s[r])
    decreases |s| - i
  {
    if i < |s| && IsIdent(c, s[i]) then IdentEnd(c, s, i + 1) else i
  }

  lemma IdentStep(c: Chars, s: string, i: nat)
    requires i <= |s|
    ensures IdentEnd(c, s, i) == if i < |s| && IsIdent(c, s[i]) then IdentEnd(c, s, i + 1) else i
    ensures Proper(c) ==> !IsIdent(c, EOF)
  {
  }

  /** Where the string at `i` ends, not counting those that are joined to it. */
  function FirstString(c: Chars, s: string, i: nat): (r: Option<nat>)
    requires i <= |s|
    ensures r.Some? ==> i <= r.value <= |s| && (i < |s| ==> i < r.value)
  {
    if i == |s| then Some(i) else StringEnd(c.space, s, i + 1, s[i], Quoted(s, i))
  }

  predicate Quoted(s: string, i: nat) {
    i < |s| && (s[i] == '\"' || s[i] == '\'')
  }

  /** The text from `i` to `mid` becomes a token, and the blanks and comments behind it are skipped. */
  function Taken(c: Chars, s: string, typ: TokenType, i: nat, mid: nat): (r: Lexed)
    requires i <= mid <= |s|
    ensures r.Read? ==> mid <= r.end <= |s|
    ensures !r.Wrong? && |r.pieces| == 1 && r.pieces[0].token == Token(typ, s[i..mid])
  {
    var t := Token(typ, s[i..mid]);
    match SkipFrom(c.space, s, mid)
    case Upto(end) => Read([Piece(t, s[mid..end])], end)
    case Endless => Hangs([Piece(t, "")], false)
    case OutOfRange => Hangs([Piece(t, "")], true)
  }

  function KeywordAt(c: Chars, s: string, i: nat, word: Word): (r: Lexed)
    requires i <= |s|
    ensures r.Read? ==> i + |word| <= r.end <= |s|
  {
    if At(s, i, word) then Taken(c, s, Keyword(word), i, i + |word|) else Wrong([])
  }

  /** An identifier, as far as its characters go, or (if `prefixed`) one with a prefix. */
  function IdentAt(c: Chars, s: string, i: nat, prefixed: bool): (r: Lexed)
    requires i <= |s|
    ensures r.Read? ==> i < r.end <= |s|
  {
    var end := IdentEnd(c, s, i);
    if end == i || (prefixed && !IsPrefixed(s[i..end])) then Wrong([])
    else Taken(c, s, if prefixed then ExtensionToken else IdentToken, i, end)
  }

  function NumberAt(c: Chars, s: string, i: nat, decimal: bool): (r: Lexed)
    requires i <= |s|
    ensures r.Read? ==> i < r.end <= |s|
  {
    var end := NumberEnd(c.digit, s, i, false, decimal);
    if end == i then Wrong([]) else Taken(c, s, NumberToken, i, end)
  }

  /** A string, without those that are joined to it. */
  function FirstAt(c: Chars, s: string, i: nat): (r: Lexed)
    requires i <= |s|
    ensures r.Read? ==> i <= r.end <= |s| && (i < |s| ==> i < r.end)
  {
    match FirstString(c, s, i)
    case None => Wrong([])
    case Some(end) => Taken(c, s, StringToken, i, end)
  }

  /** A string, and those that are joined to it by `+` if it is in quotes. */
  function StringAt(c: Chars, s: string, i: nat): (r: Lexed)
    requires i <= |s|
    ensures r.Read? ==> i <= r.end <= |s| && (i < |s| ==> i < r.end)
    decreases |s| - i
  {
    var first := FirstAt(c, s, i);
    if first.Read? && Quoted(s, i) then
      var plus := KeywordAt(c, s, first.end, "+");
      if plus.Wrong? then first
      else Behind(first.pieces, if plus.Read? then Behind(plus.pieces, StringAt(c, s, plus.end)) else plus)
    else first
  }

  lemma StringStep(c: Chars, s: string, i: nat)
    requires i <= |s|
    ensures var first := FirstAt(c, s, i);
            if !first.Read? || !Quoted(s, i) || KeywordAt(c, s, first.end, "+").Wrong? then StringAt(c, s, i) == first
            else
              var plus := KeywordAt(c, s, first.end, "+");
              var rest := if plus.Read? then Behind(plus.pieces, StringAt(c, s, plus.end)) else plus;
              StringAt(c, s, i) == Behind(first.pieces, rest)
  {
  }

  /** The same behind some pieces. */
  function Behind(pieces: seq<Piece>, l: Lexed): Lexed {
    match l
    case Read(ps, end) => Read(pieces + ps, end)
    case Wrong(ps) => Wrong(pieces + ps)
    case Hangs(ps, crash) => Hangs(pieces + ps, crash)
  }

  lemma BehindBoth(a: seq<Piece>, b: seq<Piece>, l: Lexed)
    ensures Behind(a, Behind(b, l)) == Behind(a + b, l)
    ensures Behind([], l) == l
  {
    assert a + (b + l.pieces) == a + b + l.pieces;
  }

  // ---------- statements ----------

  /** What a statement takes after its keyword. */
  datatype Arg =
    | AnIdent
    | AString
    | NumberOrString
    | Integer
    | OneOf(words: seq<Word>)
    | Deviate
    | OpenBrace
    | End

  const ENDS: seq<Word> := [";", "{"]

  const DEVIATIONS: seq<Word> := ["replace", "add", "delete"]

  /** The keywords of some statements, and what follows any of them. */
  datatype Form = Form(words: seq<Word>, args: seq<Arg>)

  const BLOCKS: seq<Word> := [
    "notification", "container", "leaf-list", "submodule", "grouping", "typedef", "action", "module", "choice", "leaf",
    "list", "case", "rpc"]

  const NAMED: seq<Word> := [
    "not-supported", "extension", "identity", "include", "anydata", "feature", "anyxml", "import", "type", "enum",
    "bit", "uses", "base"]

  const LONG_TEXTS: seq<Word> := [
    "error-message", "error-app-tag", "organization", "yang-version", "description", "if-feature", "namespace",
    "reference", "revision", "argument", "presence"]

  const SHORT_TEXTS: seq<Word> := [
    "contact", "pattern", "prefix", "length", "unique", "range", "units", "type", "path", "when", "must", "key"]

  /** Statements by their keywords, which are tried in this order. */
  const FORMS: seq<Form> := [
    Form(BLOCKS, [AnIdent, OpenBrace]),
    Form(["deviation", "augment", "refine"], [AString, OpenBrace]),
    Form(["input", "output"], [OpenBrace]),
    Form(["deviate"], [Deviate]),
    Form(NAMED, [AnIdent, End]),
    Form(["status"], [OneOf(["current", "obsolete", "deprecated"]), End]),
    Form(["default", "value", "position", "fraction-digits"], [NumberOrString, End]),
    Form(["mandatory", "config", "yin-element", "require-instance"], [OneOf(["true", "false"]), End]),
    Form(LONG_TEXTS + SHORT_TEXTS, [AString, End]),
    Form(["ordered-by"], [OneOf(["system", "user"]), End]),
    Form(["max-elements", "min-elements"], [Integer, End]),
    Form(["}"], [])
  ]

  /** The first of some words that is next. */
  function OneOfAt(c: Chars, s: string, i: nat, words: seq<Word>): (r: Lexed)
    requires i <= |s|
    ensures r.Read? ==> i < r.end <= |s|
  {
    if words == [] then Wrong([])
    else if At(s, i, words[0]) then KeywordAt(c, s, i, words[0])
    else OneOfAt(c, s, i, words[1..])
  }

  function DeviateAt(c: Chars, s: string, i: nat): (r: Lexed)
    requires i <= |s|
    ensures r.Read? ==> i <= r.end <= |s|
  {
    var word := if At(s, i, "not-supported") then KeywordAt(c, s, i, "not-supported") else OneOfAt(c, s, i, DEVIATIONS);
    if word.Read? then
      Behind(word.pieces, OneOfAt(c, s, word.end, if At(s, i, "not-supported") then ["{", ";"] else ["{"]))
    else word
  }

  function ArgAt(c: Chars, s: string, i: nat, arg: Arg): (r: Lexed)
    requires i <= |s|
    ensures r.Read? ==> i <= r.end <= |s|
  {
    match arg
    case AnIdent => IdentAt(c, s, i, false)
    case AString => StringAt(c, s, i)
    case NumberOrString =>
      var number := NumberAt(c, s, i, true);
      if number.Wrong? then StringAt(c, s, i) else number
    case Integer =>
      var word := KeywordAt(c, s, i, "unbounded");
      if word.Wrong? then NumberAt(c, s, i, false) else word
    case OneOf(words) => OneOfAt(c, s, i, words)
    case Deviate => DeviateAt(c, s, i)
    case OpenBrace => KeywordAt(c, s, i, "{")
    case End => OneOfAt(c, s, i, ENDS)
  }

  /** What follows the keyword of a statement. */
  function ArgsAt(c: Chars, s: string, i: nat, args: seq<Arg>): (r: Lexed)
    requires i <= |s|
    ensures r.Read? ==> i <= r.end <= |s|
    decreases |args|
  {
    if args == [] then Read([], i) else
      var first := ArgAt(c, s, i, args[0]);
      if first.Read? then Behind(first.pieces, ArgsAt(c, s, first.end, args[1..])) else first
  }

  lemma ArgsStep(c: Chars, s: string, i: nat, args: seq<Arg>, k: nat)
    requires i <= |s| && k <= |args|
    ensures ArgsAt(c, s, i, args[0..]) == ArgsAt(c, s, i, args)
    ensures k == |args| ==> ArgsAt(c, s, i, args[k..]) == Read([], i)
    ensures k < |args| ==>
              var first := ArgAt(c, s, i, args[k]);
              ArgsAt(c, s, i, args[k..]) ==
              if first.Read? then Behind(first.pieces, ArgsAt(c, s, first.end, args[k + 1..])) else first
  {
    assert args[0..] == args;
    if k < |args| {
      assert args[k..][1..] == args[k + 1..];
    }
  }

  /** The arguments of an extension; where the input ends among them, empty strings are taken for ever. */
  function WordsAt(c: Chars, s: string, i: nat): (r: Lexed)
    requires i <= |s|
    ensures r.Read? ==> i <= r.end <= |s|
    decreases |s| - i
  {
    if i == |s| then Hangs([], false) else
      var end := OneOfAt(c, s, i, ENDS);
      if !end.Wrong? then end else
        var word := ArgAt(c, s, i, NumberOrString);
        if word.Read? then
          WordMoves(c, s, i);
          Behind(word.pieces, WordsAt(c, s, word.end))
        else word
  }

  lemma WordMoves(c: Chars, s: string, i: nat)
    requires i < |s| && ArgAt(c, s, i, NumberOrString).Read?
    ensures i < ArgAt(c, s, i, NumberOrString).end <= |s|
  {
  }

  lemma WordsStep(c: Chars, s: string, i: nat)
    requires i <= |s|
    ensures i == |s| ==> WordsAt(c, s, i) == Hangs([], false)
    ensures i < |s| && !OneOfAt(c, s, i, ENDS).Wrong? ==> WordsAt(c, s, i) == OneOfAt(c, s, i, ENDS)
    ensures i < |s| && OneOfAt(c, s, i, ENDS).Wrong? ==>
              var word := ArgAt(c, s, i, NumberOrString);
              && (word.Read? ==> i < word.end <= |s|)
              && WordsAt(c, s, i) == if word.Read? then Behind(word.pieces, WordsAt(c, s, word.end)) else word
  {
    if i < |s| && ArgAt(c, s, i, NumberOrString).Read? {
      WordMoves(c, s, i);
    }
  }

  /** An extension statement, with any number of arguments. */
  function ExtensionAt(c: Chars, s: string, i: nat): (r: Lexed)
    requires i <= |s|
    ensures r.Read? ==> i < r.end <= |s|
  {
    var name := IdentAt(c, s, i, true);
    if name.Read? then Behind(name.pieces, WordsAt(c, s, name.end)) else name
  }

  /** A statement of one of the given forms, which are tried in order, or an extension statement. */
  function FormsAt(c: Chars, s: string, i: nat, forms: seq<Form>): (r: Lexed)
    requires i <= |s|
    ensures r.Read? ==> i < r.end <= |s|
    decreases |forms|
  {
    if forms == [] then ExtensionAt(c, s, i) else
      var word := OneOfAt(c, s, i, forms[0].words);
      match word
      case Wrong(_) => FormsAt(c, s, i, forms[1..])
      case Hangs(_, _) => word
      case Read(ps, at) => Behind(ps, ArgsAt(c, s, at, forms[0].args))
  }

  lemma FormsStep(c: Chars, s: string, i: nat, forms: seq<Form>, k: nat)
    requires i <= |s| && k <= |forms|
    ensures k == |forms| ==> FormsAt(c, s, i, forms[k..]) == ExtensionAt(c, s, i)
    ensures k < |forms| ==>
              var word := OneOfAt(c, s, i, forms[k].words);
              if word.Wrong? then FormsAt(c, s, i, forms[k..]) == FormsAt(c, s, i, forms[k + 1..])
              else if word.Hangs? then FormsAt(c, s, i, forms[k..]) == word
              else FormsAt(c, s, i, forms[k..]) == Behind(word.pieces, ArgsAt(c, s, word.end, forms[k].args))
  {
    if k < |forms| {
      assert forms[k..][1..] == forms[k + 1..];
    }
  }

  function StatementAt(c: Chars, s: string, i: nat): (r: Lexed)
    requires i <= |s|
    ensures r.Read? ==> i < r.end <= |s|
  {
    FormsAt(c, s, i, FORMS)
  }

  lemma StatementStarts(c: Chars, s: string, i: nat)
    requires i <= |s|
    ensures StatementAt(c, s, i) == FormsAt(c, s, i, FORMS[0..])
  {
    assert FORMS[0..] == FORMS;
  }

  /** All statements from `i` on. */
  function TextFrom(c: Chars, s: string, i: nat): (r: Lexed)
    requires i <= |s|
    ensures r.Read? ==> r.end == |s|
    decreases |s| - i
  {
    if i == |s| then Read([], i) else
      var first := StatementAt(c, s, i);
      if first.Read? then
        Behind(first.pieces, TextFrom(c, s, first.end))
      else first
  }

  /** What the lexer makes of a whole text. */
  function Text(c: Chars, s: string): Lexed {
    match SkipFrom(c.space, s, 0)
    case Upto(i) => TextFrom(c, s, i)
    case Endless => Hangs([], false)
    case OutOfRange => Hangs([], true)
  }

  /** Every statement that is read has fewer tokens than the ring has slots. */
  predicate FitsFrom(c: Chars, s: string, i: nat, ring: nat)
    requires i <= |s|
    decreases |s| - i
  {
    i == |s| ||
    var first := StatementAt(c, s, i);
    |first.pieces| < ring && (first.Read? ==> FitsFrom(c, s, first.end, ring))
  }

  predicate Fits(c: Chars, s: string, ring: nat) {
    var first := SkipFrom(c.space, s, 0);
    first.Upto? ==> FitsFrom(c, s, first.end, ring)
  }

  // ---------- nothing is left out ----------

  /** A piece goes from `i` to `next`, and behind its token all blanks and comments are skipped. */
  ghost predicate Fills(c: Chars, s: string, i: nat, p: Piece, next: nat) {
    && i + |p.token.val| <= next <= |s| && SkipFrom(c.space, s, i + |p.token.val|) == Upto(next)
    && s[i..i + |p.token.val|] == p.token.val && s[i + |p.token.val|..next] == p.skipped
  }

  function Next(i: nat, p: Piece): nat {
    i + |p.token.val| + |p.skipped|
  }

  /** The pieces follow each other from `i` to `end`. */
  ghost predicate Covers(c: Chars, s: string, i: nat, pieces: seq<Piece>, end: nat)
    decreases |pieces|
  {
    if pieces == [] then i == end
    else Fills(c, s, i, pieces[0], Next(i, pieces[0])) && Covers(c, s, Next(i, pieces[0]), pieces[1..], end)
  }

  lemma {:induction false} CoversBoth(c: Chars, s: string, i: nat, a: seq<Piece>, m: nat, b: seq<Piece>, end: nat)
    requires Covers(c, s, i, a, m) && Covers(c, s, m, b, end)
    ensures Covers(c, s, i, a + b, end)
    decreases |a|
  {
    hide Fills, Next;
    if a == [] {
      assert a + b == b;
    } else {
      assert (a + b)[1..] == a[1..] + b;
      CoversBoth(c, s, Next(i, a[0]), a[1..], m, b, end);
    }
  }

  ghost predicate Whole(c: Chars, s: string, i: nat, l: Lexed) {
    l.Read? ==> Covers(c, s, i, l.pieces, l.end)
  }

  lemma WholeBehind(c: Chars, s: string, i: nat, a: Lexed, b: Lexed)
    requires a.Read? && Whole(c, s, i, a) && Whole(c, s, a.end, b)
    ensures Whole(c, s, i, Behind(a.pieces, b))
  {
    hide Covers;
    if b.Read? {
      CoversBoth(c, s, i, a.pieces, a.end, b.pieces, b.end);
    }
  }

  lemma TakenWhole(c: Chars, s: string, typ: TokenType, i: nat, mid: nat)
    requires i <= mid <= |s|
    ensures Whole(c, s, i, Taken(c, s, typ, i, mid))
  {
  }

  lemma OneOfWhole(c: Chars, s: string, i: nat, words: seq<Word>)
    requires i <= |s|
    ensures Whole(c, s, i, OneOfAt(c, s, i, words))
  {
    hide Covers;
    if words != [] {
      if At(s, i, words[0]) {
        TakenWhole(c, s, Keyword(words[0]), i, i + |words[0]|);
      } else {
        OneOfWhole(c, s, i, words[1..]);
      }
    }
  }

  lemma KeywordWhole(c: Chars, s: string, i: nat, word: Word)
    requires i <= |s|
    ensures Whole(c, s, i, KeywordAt(c, s, i, word))
  {
    hide Covers;
    if At(s, i, word) {
      TakenWhole(c, s, Keyword(word), i, i + |word|);
    }
  }

  lemma IdentWhole(c: Chars, s: string, i: nat, prefixed: bool)
    requires i <= |s|
    ensures Whole(c, s, i, IdentAt(c, s, i, prefixed))
  {
    hide Covers;
    TakenWhole(c, s, if prefixed then ExtensionToken else IdentToken, i, IdentEnd(c, s, i));
  }

  lemma NumberWhole(c: Chars, s: string, i: nat, decimal: bool)
    requires i <= |s|
    ensures Whole(c, s, i, NumberAt(c, s, i, decimal))
  {
    hide Covers;
    TakenWhole(c, s, NumberToken, i, NumberEnd(c.digit, s, i, false, decimal));
  }

  lemma {:induction false} StringWhole(c: Chars, s: string, i: nat)
    requires i <= |s|
    ensures Whole(c, s, i, StringAt(c, s, i))
    decreases |s| - i
  {
    hide Covers, Taken, SkipFrom, FirstAt;
    var first := FirstAt(c, s, i);
    FirstWhole(c, s, i);
    if first.Read? && Quoted(s, i) {
      var plus := KeywordAt(c, s, first.end, "+");
      KeywordWhole(c, s, first.end, "+");
      WholeBehind(c, s, i, first, plus);
      if plus.Read? {
        StringWhole(c, s, plus.end);
        WholeBehind(c, s, first.end, plus, StringAt(c, s, plus.end));
        WholeBehind(c, s, i, first, Behind(plus.pieces, StringAt(c, s, plus.end)));
      }
    }
  }

  lemma FirstWhole(c: Chars, s: string, i: nat)
    requires i <= |s|
    ensures Whole(c, s, i, FirstAt(c, s, i))
  {
    hide Covers, Taken, FirstString;
    var end := FirstString(c, s, i);
    if end.Some? {
      TakenWhole(c, s, StringToken, i, end.value);
    }
  }

  lemma DeviateWhole(c: Chars, s: string, i: nat)
    requires i <= |s|
    ensures Whole(c, s, i, DeviateAt(c, s, i))
  {
    hide Covers, OneOfAt, KeywordAt;
    KeywordWhole(c, s, i, "not-supported");
    OneOfWhole(c, s, i, DEVIATIONS);
    var word := if At(s, i, "not-supported") then KeywordAt(c, s, i, "not-supported") else OneOfAt(c, s, i, DEVIATIONS);
    if word.Read? {
      var ends := if At(s, i, "not-supported") then ["{", ";"] else ["{"];
      OneOfWhole(c, s, word.end, ends);
      WholeBehind(c, s, i, word, OneOfAt(c, s, word.end, ends));
    }
  }

  lemma ArgWhole(c: Chars, s: string, i: nat, arg: Arg)
    requires i <= |s|
    ensures Whole(c, s, i, ArgAt(c, s, i, arg))
  {
    hide Covers, Whole, IdentAt, StringAt, NumberAt, KeywordAt, OneOfAt, DeviateAt;
    match arg
    case AnIdent => IdentWhole(c, s, i, false);
    case AString => StringWhole(c, s, i);
    case NumberOrString => NumberWhole(c, s, i, true); StringWhole(c, s, i);
    case Integer => KeywordWhole(c, s, i, "unbounded"); NumberWhole(c, s, i, false);
    case OneOf(words) => OneOfWhole(c, s, i, words);
    case Deviate => DeviateWhole(c, s, i);
    case OpenBrace => KeywordWhole(c, s, i, "{");
    case End => OneOfWhole(c, s, i, ENDS);
  }

  lemma {:induction false} ArgsWhole(c: Chars, s: string, i: nat, args: seq<Arg>)
    requires i <= |s|
    ensures Whole(c, s, i, ArgsAt(c, s, i, args))
    decreases |args|
  {
    hide ArgAt;
    if args != [] {
      var first := ArgAt(c, s, i, args[0]);
      ArgWhole(c, s, i, args[0]);
      if first.Read? {
        ArgsWhole(c, s, first.end, args[1..]);
        WholeBehind(c, s, i, first, ArgsAt(c, s, first.end, args[1..]));
      }
    }
  }

  lemma {:induction false} WordsWhole(c: Chars, s: string, i: nat)
    requires i <= |s|
    ensures Whole(c, s, i, WordsAt(c, s, i))
    decreases |s| - i
  {
    hide Covers, OneOfAt, ArgAt;
    if i < |s| {
      OneOfWhole(c, s, i, ENDS);
      var word := ArgAt(c, s, i, NumberOrString);
      ArgWhole(c, s, i, NumberOrString);
      if OneOfAt(c, s, i, ENDS).Wrong? && word.Read? {
        WordMoves(c, s, i);
        WordsWhole(c, s, word.end);
        WholeBehind(c, s, i, word, WordsAt(c, s, word.end));
      }
    }
  }

  lemma {:induction false} FormsWhole(c: Chars, s: string, i: nat, forms: seq<Form>)
    requires i <= |s|
    ensures Whole(c, s, i, FormsAt(c, s, i, forms))
    decreases |forms|
  {
    hide Covers, OneOfAt, ArgsAt, IdentAt, WordsAt;
    if forms == [] {
      IdentWhole(c, s, i, true);
      var name := IdentAt(c, s, i, true);
      if name.Read? {
        WordsWhole(c, s, name.end);
        WholeBehind(c, s, i, name, WordsAt(c, s, name.end));
      }
    } else {
      var word := OneOfAt(c, s, i, forms[0].words);
      OneOfWhole(c, s, i, forms[0].words);
      if word.Wrong? {
        FormsWhole(c, s, i, forms[1..]);
      } else if word.Read? {
        ArgsWhole(c, s, word.end, forms[0].args);
        WholeBehind(c, s, i, word, ArgsAt(c, s, word.end, forms[0].args));
      }
    }
  }

  lemma {:induction false} TextWhole(c: Chars, s: string, i: nat)
    requires i <= |s|
    ensures Whole(c, s, i, TextFrom(c, s, i))
    decreases |s| - i
  {
    hide StatementAt;
    if i < |s| {
      var first := StatementAt(c, s, i);
      StatementWhole(c, s, i);
      if first.Read? {
        TextWhole(c, s, first.end);
        WholeBehind(c, s, i, first, TextFrom(c, s, first.end));
      }
    }
  }

  lemma StatementWhole(c: Chars, s: string, i: nat)
    requires i <= |s|
    ensures Whole(c, s, i, StatementAt(c, s, i))
  {
    FormsWhole(c, s, i, FORMS);
  }

  /** The text of some pieces. */
  function Spelled(pieces: seq<Piece>): string {
    if pieces == [] then "" else pieces[0].token.val + pieces[0].skipped + Spelled(pieces[1..])
  }

  lemma {:induction false} CoversSpells(c: Chars, s: string, i: nat, pieces: seq<Piece>, end: nat)
    requires Covers(c, s, i, pieces, end) && i <= |s|
    ensures i <= end <= |s| && s[i..end] == Spelled(pieces)
    decreases |pieces|
  {
    hide Fills, Next;
    if pieces != [] {
      var next := Next(i, pieces[0]);
      FillsSpells(c, s, i, pieces[0], next);
      CoversSpells(c, s, next, pieces[1..], end);
      assert s[i..end] == s[i..next] + s[next..end];
    }
  }

  lemma FillsSpells(c: Chars, s: string, i: nat, p: Piece, next: nat)
    requires Fills(c, s, i, p, next)
    ensures i <= next <= |s| && s[i..next] == p.token.val + p.skipped
  {
  }

  /** A text that is read is what is skipped first and then its pieces, each with all blanks and comments behind it. */
  lemma TextIsPieces(c: Chars, s: string)
    requires Text(c, s).Read?
    ensures var first := SkipFrom(c.space, s, 0);
            && first.Upto? && Covers(c, s, first.end, Text(c, s).pieces, |s|)
            && s == s[..first.end] + Spelled(Text(c, s).pieces)
  {
    hide Covers, Spelled, SkipFrom, TextFrom;
    var i := SkipFrom(c.space, s, 0).end;
    TextWhole(c, s, i);
    CoversSpells(c, s, i, Text(c, s).pieces, |s|);
    assert s[i..|s|] == s[i..];
    assert s == s[..i] + s[i..];
  }

  // ---------- where statements end ----------

  predicate IsEnd(t: Token) {
    t.typ == Keyword(t.val) && t.val in [";", "{", "}"]
  }

  predicate NoEnds(pieces: seq<Piece>) {
    forall i :: 0 <= i < |pieces| ==> !IsEnd(pieces[i].token)
  }

  /** The last token ends the statement, and no other one does. */
  predicate Ended(pieces: seq<Piece>) {
    |pieces| > 0 && IsEnd(pieces[|pieces| - 1].token) && NoEnds(pieces[..|pieces| - 1])
  }

  lemma EndedBehind(a: seq<Piece>, b: seq<Piece>)
    requires NoEnds(a)
    ensures NoEnds(b) ==> NoEnds(a + b)
    ensures Ended(b) ==> Ended(a + b)
  {
    if Ended(b) {
      assert (a + b)[..|a + b| - 1] == a + b[..|b| - 1];
    }
  }

  /** The words are too long for the end of a statement, or all are such ends. */
  predicate NoEndWords(words: seq<Word>) {
    forall i :: 0 <= i < |words| ==> |words[i]| > 1
  }

  predicate EndWords(words: seq<Word>) {
    forall w <- words :: w in [";", "{", "}"]
  }

  lemma OneOfEnds(c: Chars, s: string, i: nat, words: seq<Word>)
    requires i <= |s|
    ensures var r := OneOfAt(c, s, i, words);
            && (NoEndWords(words) ==> NoEnds(r.pieces))
            && (EndWords(words) && !r.Wrong? ==> Ended(r.pieces))
            && |r.pieces| == (if r.Wrong? then 0 else 1)
  {
    if words != [] && !At(s, i, words[0]) {
      OneOfEnds(c, s, i, words[1..]);
    }
  }

  lemma {:induction false} StringEnds(c: Chars, s: string, i: nat)
    requires i <= |s|
    ensures NoEnds(StringAt(c, s, i).pieces)
    decreases |s| - i
  {
    hide SkipFrom, FirstString;
    var first := FirstAt(c, s, i);
    if first.Read? && Quoted(s, i) {
      var plus := KeywordAt(c, s, first.end, "+");
      if plus.Read? {
        StringEnds(c, s, plus.end);
        EndedBehind(plus.pieces, StringAt(c, s, plus.end).pieces);
      }
    }
  }

  predicate EndsArg(arg: Arg) {
    arg.Deviate? || arg.OpenBrace? || arg.End?
  }

  predicate ArgHasNoEnds(arg: Arg) {
    arg.OneOf? ==> NoEndWords(arg.words)
  }

  lemma DeviateEnds(c: Chars, s: string, i: nat)
    requires i <= |s|
    ensures var r := DeviateAt(c, s, i); (r.Read? ==> Ended(r.pieces)) && (r.Wrong? ==> NoEnds(r.pieces))
    ensures |DeviateAt(c, s, i).pieces| <= 2
  {
    hide SkipFrom, Ended;
    OneOfEnds(c, s, i, DEVIATIONS);
    OneOfEnds(c, s, i, ["not-supported"]);
    var word := if At(s, i, "not-supported") then KeywordAt(c, s, i, "not-supported") else OneOfAt(c, s, i, DEVIATIONS);
    assert NoEnds(word.pieces);
    if word.Read? {
      var ends := if At(s, i, "not-supported") then ["{", ";"] else ["{"];
      OneOfEnds(c, s, word.end, ends);
      EndedBehind(word.pieces, OneOfAt(c, s, word.end, ends).pieces);
    }
  }

  lemma ArgEnds(c: Chars, s: string, i: nat, arg: Arg)
    requires i <= |s| && ArgHasNoEnds(arg)
    ensures var r := ArgAt(c, s, i, arg);
            && (r.Read? ==> if EndsArg(arg) then Ended(r.pieces) else NoEnds(r.pieces))
            && (r.Wrong? ==> NoEnds(r.pieces))
            && (!arg.AString? && !arg.NumberOrString? ==> |r.pieces| <= 2)
            && (EndsArg(arg) && !arg.Deviate? ==> |r.pieces| <= 1)
  {
    hide SkipFrom, Ended;
    match arg
    case AnIdent =>
    case AString => StringEnds(c, s, i);
    case NumberOrString => StringEnds(c, s, i);
    case Integer => OneOfEnds(c, s, i, ["unbounded"]);
    case OneOf(words) => OneOfEnds(c, s, i, words);
    case Deviate => DeviateEnds(c, s, i);
    case OpenBrace => OneOfEnds(c, s, i, ["{"]);
    case End => OneOfEnds(c, s, i, ENDS);
  }

  /** The last argument ends the statement, and no other one does. */
  predicate ArgsEnd(args: seq<Arg>) {
    |args| > 0 && ArgHasNoEnds(args[0])
    && if |args| == 1 then EndsArg(args[0]) else !EndsArg(args[0]) && ArgsEnd(args[1..])
  }

  lemma {:induction false} ArgsEnded(c: Chars, s: string, i: nat, args: seq<Arg>)
    requires i <= |s| && ArgsEnd(args)
    ensures ArgsAt(c, s, i, args).Read? ==> Ended(ArgsAt(c, s, i, args).pieces)
    decreases |args|
  {
    hide ArgAt, Ended;
    var first := ArgAt(c, s, i, args[0]);
    ArgEnds(c, s, i, args[0]);
    if first.Read? {
      var rest := ArgsAt(c, s, first.end, args[1..]);
      if |args| == 1 {
        assert rest.pieces == [];
        assert first.pieces + [] == first.pieces;
      } else {
        ArgsEnded(c, s, first.end, args[1..]);
        EndedBehind(first.pieces, rest.pieces);
      }
    }
  }

  lemma {:induction false} WordsEnded(c: Chars, s: string, i: nat)
    requires i <= |s|
    ensures WordsAt(c, s, i).Read? ==> Ended(WordsAt(c, s, i).pieces)
    decreases |s| - i
  {
    hide OneOfAt, ArgAt, Ended;
    if i < |s| {
      OneOfEnds(c, s, i, ENDS);
      var word := ArgAt(c, s, i, NumberOrString);
      ArgEnds(c, s, i, NumberOrString);
      if OneOfAt(c, s, i, ENDS).Wrong? && word.Read? {
        WordMoves(c, s, i);
        WordsEnded(c, s, word.end);
        EndedBehind(word.pieces, WordsAt(c, s, word.end).pieces);
      }
    }
  }

  /** A keyword that does not end the statement and arguments of which the last one does; or an end alone. */
  predicate FormEnds(f: Form) {
    (NoEndWords(f.words) && ArgsEnd(f.args)) || (EndWords(f.words) && f.args == [])
  }

  lemma {:induction false} FormsEnded(c: Chars, s: string, i: nat, forms: seq<Form>)
    requires i <= |s| && forall f <- forms :: FormEnds(f)
    ensures FormsAt(c, s, i, forms).Read? ==> Ended(FormsAt(c, s, i, forms).pieces)
    decreases |forms|
  {
    hide OneOfAt, ArgAt, Ended, NoEndWords, EndWords, WordsAt;
    if forms == [] {
      var name := IdentAt(c, s, i, true);
      if name.Read? {
        WordsEnded(c, s, name.end);
        EndedBehind(name.pieces, WordsAt(c, s, name.end).pieces);
      }
    } else {
      var word := OneOfAt(c, s, i, forms[0].words);
      OneOfEnds(c, s, i, forms[0].words);
      assert FormEnds(forms[0]);
      if word.Wrong? {
        FormsEnded(c, s, i, forms[1..]);
      } else if word.Read? {
        var rest := ArgsAt(c, s, word.end, forms[0].args);
        if forms[0].args == [] {
          assert word.pieces + rest.pieces == word.pieces;
        } else {
          ArgsEnded(c, s, word.end, forms[0].args);
          EndedBehind(word.pieces, rest.pieces);
        }
      }
    }
  }

  lemma BlocksEnd()
    ensures NoEndWords(BLOCKS) && NoEndWords(NAMED) && NoEndWords(LONG_TEXTS) && NoEndWords(SHORT_TEXTS)
  {
  }

  lemma ArgsEndWith(arg: Arg, end: Arg)
    requires EndsArg(end)
    ensures ArgsEnd([end])
    ensures !EndsArg(arg) && ArgHasNoEnds(arg) ==> ArgsEnd([arg, end])
  {
    assert [arg, end][1..] == [end];
  }

  lemma BlockFormsEnd()
    ensures forall k :: 0 <= k < 5 ==> FormEnds(FORMS[k])
  {
    BlocksEnd();
    hide BLOCKS, NAMED, LONG_TEXTS, SHORT_TEXTS, ArgsEnd;
    ArgsEndWith(AnIdent, OpenBrace);
    ArgsEndWith(AString, OpenBrace);
    ArgsEndWith(AString, Deviate);
    ArgsEndWith(AnIdent, End);
  }

  lemma ChoiceFormsEnd()
    ensures forall k :: 5 <= k < 8 ==> FormEnds(FORMS[k])
  {
    hide BLOCKS, NAMED, LONG_TEXTS, SHORT_TEXTS, ArgsEnd;
    forall arg: Arg | !EndsArg(arg) && ArgHasNoEnds(arg) ensures ArgsEnd([arg, End]) {
      ArgsEndWith(arg, End);
    }
  }

  lemma LineFormsEnd()
    ensures forall k :: 8 <= k < |FORMS| ==> FormEnds(FORMS[k])
  {
    BlocksEnd();
    hide BLOCKS, NAMED, LONG_TEXTS, SHORT_TEXTS, ArgsEnd;
    forall arg: Arg | !EndsArg(arg) && ArgHasNoEnds(arg) ensures ArgsEnd([arg, End]) {
      ArgsEndWith(arg, End);
    }
  }

  /** Of the tokens of a statement the last one is `;`, `{` or `}`, and no other one is. */
  lemma StatementEnded(c: Chars, s: string, i: nat)
    requires i <= |s| && StatementAt(c, s, i).Read?
    ensures Ended(StatementAt(c, s, i).pieces)
  {
    BlockFormsEnd();
    ChoiceFormsEnd();
    LineFormsEnd();
    hide FORMS, FormEnds, Ended, FormsAt;
    FormsEnded(c, s, i, FORMS);
  }

  // ---------- how statements begin, and which ones are long ----------

  predicate IsOneOf(t: Token, words: seq<Word>) {
    t.val in words && t.typ == Keyword(t.val)
  }

  /** The first token of a statement: a keyword, or the name of an extension. */
  predicate Begins(t: Token, forms: seq<Form>) {
    (t.typ == ExtensionToken && IsPrefixed(t.val)) || exists i :: 0 <= i < |forms| && IsOneOf(t, forms[i].words)
  }

  lemma OneOfIs(c: Chars, s: string, i: nat, words: seq<Word>)
    requires i <= |s|
    ensures var r := OneOfAt(c, s, i, words);
            if r.Wrong? then r.pieces == [] && (forall w <- words :: !At(s, i, w))
            else |r.pieces| == 1 && IsOneOf(r.pieces[0].token, words)
  {
    if words != [] && !At(s, i, words[0]) {
      OneOfIs(c, s, i, words[1..]);
    }
  }

  lemma {:induction false} FormsBegin(c: Chars, s: string, i: nat, forms: seq<Form>)
    requires i <= |s| && FormsAt(c, s, i, forms).pieces != []
    ensures Begins(FormsAt(c, s, i, forms).pieces[0].token, forms)
    decreases |forms|
  {
    hide OneOfAt, IsOneOf, ArgsAt, WordsAt, IsPrefixed;
    if forms != [] {
      OneOfIs(c, s, i, forms[0].words);
      if OneOfAt(c, s, i, forms[0].words).Wrong? {
        FormsBegin(c, s, i, forms[1..]);
      }
    }
  }

  predicate IsPlus(p: Piece) {
    p.token == Token(Keyword("+"), "+")
  }

  /** Some strings are joined by `+`. */
  predicate Joins(pieces: seq<Piece>) {
    exists i :: 0 <= i < |pieces| && IsPlus(pieces[i])
  }

  lemma JoinsBehind(a: seq<Piece>, b: seq<Piece>)
    ensures Joins(a + b) <==> Joins(a) || Joins(b)
  {
    if i :| 0 <= i < |b| && IsPlus(b[i]) {
      assert (a + b)[|a| + i] == b[i];
    }
    if i :| 0 <= i < |a| && IsPlus(a[i]) {
      assert (a + b)[i] == a[i];
    }
  }

  lemma PlusJoins(pieces: seq<Piece>)
    requires |pieces| > 0 && IsPlus(pieces[0])
    ensures Joins(pieces)
  {
  }

  lemma StringShort(c: Chars, s: string, i: nat)
    requires i <= |s|
    ensures Joins(StringAt(c, s, i).pieces) || |StringAt(c, s, i).pieces| <= 1
  {
    hide SkipFrom, Joins, FirstString;
    var first := FirstAt(c, s, i);
    var plus := if first.Read? then KeywordAt(c, s, first.end, "+") else Wrong([]);
    if !plus.Wrong? && Quoted(s, i) {
      PlusJoins(plus.pieces);
      var more := if plus.Read? then StringAt(c, s, plus.end).pieces else [];
      JoinsBehind(plus.pieces, more);
      JoinsBehind(first.pieces, plus.pieces + more);
      assert plus.Hangs? ==> plus.pieces + more == plus.pieces;
      assert StringAt(c, s, i).pieces == first.pieces + (plus.pieces + more);
    }
  }

  lemma ArgShort(c: Chars, s: string, i: nat, arg: Arg)
    requires i <= |s| && !Joins(ArgAt(c, s, i, arg).pieces)
    ensures |ArgAt(c, s, i, arg).pieces| <= if arg.Deviate? then 2 else 1
  {
    hide SkipFrom, Joins;
    match arg
    case AnIdent =>
    case AString => StringShort(c, s, i);
    case NumberOrString => if NumberAt(c, s, i, true).Wrong? { StringShort(c, s, i); }
    case Integer =>
    case OneOf(words) => OneOfIs(c, s, i, words);
    case Deviate => DeviateEnds(c, s, i);
    case OpenBrace =>
    case End => OneOfIs(c, s, i, ENDS);
  }

  function Most(args: seq<Arg>): nat {
    if args == [] then 0 else (if args[0].Deviate? then 2 else 1) + Most(args[1..])
  }

  lemma {:induction false} ArgsShort(c: Chars, s: string, i: nat, args: seq<Arg>)
    requires i <= |s| && !Joins(ArgsAt(c, s, i, args).pieces)
    ensures |ArgsAt(c, s, i, args).pieces| <= Most(args)
    decreases |args|
  {
    hide ArgAt, Joins;
    if args != [] {
      var first := ArgAt(c, s, i, args[0]);
      if first.Read? {
        var rest := ArgsAt(c, s, first.end, args[1..]);
        JoinsBehind(first.pieces, rest.pieces);
        ArgsShort(c, s, first.end, args[1..]);
      }
      ArgShort(c, s, i, args[0]);
    }
  }

  lemma {:induction false} FormsShort(c: Chars, s: string, i: nat, forms: seq<Form>)
    requires i <= |s| && forall f <- forms :: Most(f.args) <= 2
    ensures var ps := FormsAt(c, s, i, forms).pieces;
            Joins(ps) || (|ps| > 0 && ps[0].token.typ == ExtensionToken) || |ps| <= 3
    decreases |forms|
  {
    hide OneOfAt, ArgsAt, WordsAt, Joins;
    if forms != [] {
      var word := OneOfAt(c, s, i, forms[0].words);
      OneOfIs(c, s, i, forms[0].words);
      if word.Wrong? {
        FormsShort(c, s, i, forms[1..]);
      } else if word.Read? {
        var rest := ArgsAt(c, s, word.end, forms[0].args);
        JoinsBehind(word.pieces, rest.pieces);
        if !Joins(rest.pieces) {
          ArgsShort(c, s, word.end, forms[0].args);
        }
      }
    }
  }

  lemma MostOf(args: seq<Arg>)
    requires |args| <= 2 && forall i :: 0 <= i < |args| && args[i].Deviate? ==> |args| == 1
    ensures Most(args) <= 2
  {
    if |args| == 2 {
      assert Most(args[1..]) == 1;
    }
  }

  lemma FormsShortArgs()
    ensures forall k :: 0 <= k < |FORMS| ==> Most(FORMS[k].args) <= 2
  {
    hide BLOCKS, NAMED, LONG_TEXTS, SHORT_TEXTS, Most;
    forall k | 0 <= k < |FORMS| ensures Most(FORMS[k].args) <= 2 {
      MostOf(FORMS[k].args);
    }
  }

  /** Only statements with joined strings and extension statements have more than three tokens. */
  lemma StatementShort(c: Chars, s: string, i: nat)
    requires i <= |s|
    ensures var ps := StatementAt(c, s, i).pieces;
            && (ps != [] ==> Begins(ps[0].token, FORMS))
            && (Joins(ps) || (|ps| > 0 && ps[0].token.typ == ExtensionToken) || |ps| <= 3)
  {
    FormsShortArgs();
    hide FORMS, Begins, FormsAt, Joins;
    FormsShort(c, s, i, FORMS);
    if StatementAt(c, s, i).pieces != [] {
      FormsBegin(c, s, i, FORMS);
    }
  }

  /** No strings are joined, and there is no extension statement. */
  predicate Plain(pieces: seq<Piece>) {
    !Joins(pieces) && forall i :: 0 <= i < |pieces| ==> pieces[i].token.typ != ExtensionToken
  }

  lemma PlainBehind(a: seq<Piece>, b: seq<Piece>)
    ensures Plain(a + b) <==> Plain(a) && Plain(b)
  {
    hide Joins;
    JoinsBehind(a, b);
    if Plain(a + b) {
      forall i | 0 <= i < |a| ensures a[i].token.typ != ExtensionToken {
        assert (a + b)[i] == a[i];
      }
      forall i | 0 <= i < |b| ensures b[i].token.typ != ExtensionToken {
        assert (a + b)[|a| + i] == b[i];
      }
    }
  }

  /** A text without them never overflows a ring of more than three slots. */
  lemma {:induction false} PlainFits(c: Chars, s: string, i: nat, ring: nat)
    requires i <= |s| && ring > 3 && Plain(TextFrom(c, s, i).pieces)
    ensures FitsFrom(c, s, i, ring)
    decreases |s| - i
  {
    hide StatementAt, Joins, Begins;
    if i < |s| {
      var first := StatementAt(c, s, i);
      StatementShort(c, s, i);
      if first.Read? {
        PlainBehind(first.pieces, TextFrom(c, s, first.end).pieces);
        PlainFits(c, s, first.end, ring);
      }
    }
  }

  lemma PlainTextFits(c: Chars, s: string, ring: nat)
    requires ring > 3 && Plain(Text(c, s).pieces)
    ensures Fits(c, s, ring)
  {
    hide TextFrom, FitsFrom, SkipFrom, Plain;
    var first := SkipFrom(c.space, s, 0);
    if first.Upto? {
      PlainFits(c, s, first.end, ring);
    }
  }
}
