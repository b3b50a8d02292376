/**
  The statements of YANG files as the lexer of parser/lexer.go takes them, the tokens of each, and how they may be
  written: with any blanks and closed comments between the tokens.
*/
module LexerGrammar {
  import opened Wrappers
  import opened LexerText

  // ---------- characters ----------

  predicate NameChar(c: Chars, x: char) {
    c.letter(x) || c.digit(x) || x == '-' || x == '_' || x == ':' || x == '.'
  }

  predicate KeyChar(x: char) {
    'a' <= x <= 'z' || x == '-'
  }

  predicate Mark(x: char) {
    x == '{' || x == '}' || x == ';' || x == '+' || x == '/' || x == '*' || x == '\"' || x == '\''
  }

  /** Blanks, letters, digits and punctuation marks are told apart. */
  ghost predicate Usual(c: Chars) {
    && Proper(c)
    && (forall x :: c.space(x) ==> !NameChar(c, x) && !KeyChar(x) && !Mark(x))
    && (forall x :: 'a' <= x <= 'z' ==> c.letter(x))
    && (forall x :: c.letter(x) ==> !Mark(x))
    && (forall x :: c.digit(x) ==> !Mark(x) && !KeyChar(x))
  }

  // ---------- the parts of a statement ----------

  /** A string without quotes, one in quotes, or one in quotes to which another is joined by `+`. */
  datatype Str = Bare(text: string) | InQuotes(text: string) | Joined(text: string, others: Str)

  /** An argument of an extension. */
  datatype Extra = ExtraNumber(number: string) | ExtraText(str: Str)

  datatype Stmt =
    | Block(word: string, name: string)
    | PathBlock(word: string, path: Str)
    | Body(word: string)
    | NotSupported(brace: bool)
    | Deviates(how: string)
    | Named(word: string, name: string, brace: bool)
    | Chosen(word: string, value: string, brace: bool)
    | WithNumber(word: string, number: string, brace: bool)
    | WithCount(word: string, count: string, brace: bool)
    | WithText(word: string, str: Str, brace: bool)
    | Close
    | Extension(name: string, extras: seq<Extra>, brace: bool)

  // ---------- tokens ----------

  function Kw(word: string): Token {
    Token(Keyword(word), word)
  }

  function EndToken(brace: bool): Token {
    Kw(if brace then "{" else ";")
  }

  function StrTokens(str: Str): seq<Token> {
    match str
    case Bare(text) => [Token(StringToken, text)]
    case InQuotes(text) => [Token(StringToken, text)]
    case Joined(text, others) => [Token(StringToken, text), Kw("+")] + StrTokens(others)
  }

  function ExtraTokens(e: Extra): seq<Token> {
    match e
    case ExtraNumber(number) => [Token(NumberToken, number)]
    case ExtraText(str) => StrTokens(str)
  }

  function ExtrasTokens(es: seq<Extra>): seq<Token> {
    if es == [] then [] else ExtraTokens(es[0]) + ExtrasTokens(es[1..])
  }

  function StmtTokens(st: Stmt): seq<Token> {
    match st
    case Block(word, name) => [Kw(word), Token(IdentToken, name), Kw("{")]
    case PathBlock(word, path) => [Kw(word)] + StrTokens(path) + [Kw("{")]
    case Body(word) => [Kw(word), Kw("{")]
    case NotSupported(brace) => [Kw("deviate"), Kw("not-supported"), EndToken(brace)]
    case Deviates(how) => [Kw("deviate"), Kw(how), Kw("{")]
    case Named(word, name, brace) => [Kw(word), Token(IdentToken, name), EndToken(brace)]
    case Chosen(word, value, brace) => [Kw(word), Kw(value), EndToken(brace)]
    case WithNumber(word, number, brace) => [Kw(word), Token(NumberToken, number), EndToken(brace)]
    case WithCount(word, count, brace) =>
      [Kw(word), if count == "unbounded" then Kw(count) else Token(NumberToken, count), EndToken(brace)]
    case WithText(word, str, brace) => [Kw(word)] + StrTokens(str) + [EndToken(brace)]
    case Close => [Kw("}")]
    case Extension(name, extras, brace) => [Token(ExtensionToken, name)] + ExtrasTokens(extras) + [EndToken(brace)]
  }

  function AllTokens(sts: seq<Stmt>): seq<Token> {
    if sts == [] then [] else StmtTokens(sts[0]) + AllTokens(sts[1..])
  }

  // ---------- which statements there are ----------

  predicate Name(c: Chars, t: string) {
    t != "" && forall k :: 0 <= k < |t| ==> NameChar(c, t[k])
  }

  /** With exactly one colon. */
  predicate PrefixedName(c: Chars, t: string) {
    Name(c, t) && exists p :: 0 <= p < |t| && t[p] == ':' && forall q :: 0 <= q < |t| && t[q] == ':' ==> q == p
  }

  predicate Sign(x: char) {
    x == '-' || x == '+'
  }

  predicate NumberText(c: Chars, t: string, point: bool) {
    && t != "" && (c.digit(t[0]) || Sign(t[0]))
    && forall k :: 1 <= k < |t| ==> c.digit(t[k]) || (point && t[k] == '.')
  }

  /** What can stand between quotes: a quote like them only behind a backslash, and only between double ones. */
  predicate Within(quote: char, t: string) {
    t == "" ||
    if quote == '\"' && t[0] == '\\' then |t| > 1 && Within(quote, t[2..])
    else t[0] != quote && t[0] != EOF && Within(quote, t[1..])
  }

  predicate QuotedText(t: string) {
    |t| > 1 && (t[0] == '\"' || t[0] == '\'') && t[|t| - 1] == t[0] && Within(t[0], t[1..|t| - 1])
  }

  predicate StartsComment(t: string) {
    |t| > 1 && t[0] == '/' && (t[1] == '*' || t[1] == '/')
  }

  predicate BareText(c: Chars, t: string) {
    && t != "" && t[0] != '\"' && t[0] != '\'' && !StartsComment(t)
    && forall k :: 0 <= k < |t| ==> !c.space(t[k]) && t[k] != ';' && t[k] != '{' && t[k] != EOF
  }

  predicate IsQuoted(t: string) {
    t != "" && (t[0] == '\"' || t[0] == '\'')
  }

  predicate IsStr(str: Str) {
    match str
    case Bare(text) => !IsQuoted(text)
    case InQuotes(text) => QuotedText(text)
    case Joined(text, others) => QuotedText(text) && IsStr(others)
  }

  predicate IsExtra(c: Chars, e: Extra) {
    match e
    case ExtraNumber(number) => NumberText(c, number, true)
    case ExtraText(str) => IsStr(str)
  }

  const BLOCK_WORDS := [
    "module", "submodule", "container", "list", "leaf", "leaf-list", "choice", "case", "grouping", "typedef", "rpc",
    "action", "notification"]

  const NAMED_WORDS := [
    "type", "uses", "base", "identity", "feature", "extension", "import", "include", "anydata", "anyxml", "enum", "bit",
    "not-supported"]

  const LONG_TEXT_WORDS := [
    "namespace", "description", "reference", "organization", "revision", "yang-version", "if-feature", "presence",
    "argument", "error-message", "error-app-tag"]

  const SHORT_TEXT_WORDS := [
    "contact", "prefix", "key", "unique", "when", "must", "pattern", "length", "range", "path", "units"]

  const VALUE_WORDS := ["default", "value", "position", "fraction-digits"]

  const PATH_WORDS := ["augment", "refine", "deviation"]

  const BOOLEAN_WORDS := ["config", "mandatory", "yin-element", "require-instance"]

  const COUNT_WORDS := ["max-elements", "min-elements"]

  const BODY_WORDS := ["input", "output"]

  const KEYWORDS :=
    BLOCK_WORDS + NAMED_WORDS + LONG_TEXT_WORDS + SHORT_TEXT_WORDS + VALUE_WORDS + PATH_WORDS + BOOLEAN_WORDS
    + COUNT_WORDS + BODY_WORDS + ["deviate", "status", "ordered-by"]

  /** A statement of the language: its keyword with the kind of argument that it takes, or an extension statement. */
  predicate IsStatement(c: Chars, st: Stmt) {
    match st
    case Block(word, name) => word in BLOCK_WORDS && Name(c, name)
    case PathBlock(word, path) => word in PATH_WORDS && IsStr(path)
    case Body(word) => word in BODY_WORDS
    case NotSupported(_) => true
    case Deviates(how) => how in ["add", "replace", "delete"]
    case Named(word, name, _) => word in NAMED_WORDS && Name(c, name)
    case Chosen(word, value, _) =>
      || (word in BOOLEAN_WORDS && value in ["true", "false"])
      || (word == "status" && value in ["current", "deprecated", "obsolete"])
      || (word == "ordered-by" && value in ["system", "user"])
    case WithNumber(word, number, _) => word in VALUE_WORDS && NumberText(c, number, true)
    case WithCount(word, count, _) => word in COUNT_WORDS && (count == "unbounded" || NumberText(c, count, false))
    case WithText(word, str, _) =>
      IsStr(str) && (word in LONG_TEXT_WORDS || word in SHORT_TEXT_WORDS || word in VALUE_WORDS)
    case Close => true
    case Extension(name, extras, _) => PrefixedName(c, name) && forall k :: 0 <= k < |extras| ==> IsExtra(c, extras[k])
  }

  /** A quote that is not closed. */
  ghost predicate Unclosed(rest: string) {
    IsQuoted(rest) && forall n :: 0 <= n <= |rest| ==> !QuotedText(rest[..n])
  }

  /** What follows the keyword cannot be its argument. */
  ghost predicate NoArgument(c: Chars, word: string, rest: string) {
    || ((word in BLOCK_WORDS || word in NAMED_WORDS) && (rest == "" || !NameChar(c, rest[0])))
    || (word in BODY_WORDS && !("{" <= rest))
    || (word == "deviate" && !StartsWith(rest, ["not-supported", "add", "replace", "delete"]))
    || (word in BOOLEAN_WORDS && !StartsWith(rest, ["true", "false"]))
    || (word == "status" && !StartsWith(rest, ["current", "deprecated", "obsolete"]))
    || (word == "ordered-by" && !StartsWith(rest, ["system", "user"]))
    || (word in COUNT_WORDS && !("unbounded" <= rest) && (rest == "" || !(c.digit(rest[0]) || Sign(rest[0]))))
    || ((word in PATH_WORDS || word in LONG_TEXT_WORDS || word in SHORT_TEXT_WORDS || word in VALUE_WORDS)
        && Unclosed(rest))
  }

  predicate StartsWith(rest: string, words: seq<string>) {
    exists k :: 0 <= k < |words| && words[k] <= rest
  }

  // ---------- which of them can be written without being taken for something else ----------

  predicate CleanStr(c: Chars, str: Str) {
    match str
    case Bare(text) => BareText(c, text)
    case InQuotes(_) => true
    case Joined(_, others) => CleanStr(c, others)
  }

  /** It is not begun like a number. */
  predicate NoNumber(c: Chars, str: Str) {
    str.Bare? && str.text != "" ==> !c.digit(str.text[0]) && !Sign(str.text[0])
  }

  predicate CleanExtra(c: Chars, e: Extra) {
    e.ExtraText? ==> CleanStr(c, e.str) && NoNumber(c, e.str)
  }

  predicate EndsQuoted(str: Str) {
    match str
    case Bare(_) => false
    case InQuotes(_) => true
    case Joined(_, others) => EndsQuoted(others)
  }

  /** The number begins with a plus sign, which would join it to a string before it. */
  predicate WouldJoin(e: Extra, next: Extra) {
    e.ExtraText? && EndsQuoted(e.str) && next.ExtraNumber? && next.number != "" && next.number[0] == '+'
  }

  /** No keyword stands at the beginning of the name: it would be taken for a statement. */
  predicate NoKeyword(name: string) {
    forall k :: 0 <= k < |KEYWORDS| ==> !(KEYWORDS[k] <= name)
  }

  predicate Clean(c: Chars, st: Stmt) {
    match st
    case PathBlock(_, path) => CleanStr(c, path)
    case WithText(word, str, _) => CleanStr(c, str) && (word in VALUE_WORDS ==> NoNumber(c, str))
    case Extension(name, extras, _) =>
      && NoKeyword(name)
      && (forall k :: 0 <= k < |extras| ==> CleanExtra(c, extras[k]))
      && (forall k :: 0 < k < |extras| ==> !WouldJoin(extras[k - 1], extras[k]))
    case _ => true
  }

  // ---------- how they are written ----------

  /** A blank, a comment that is closed, one whose end shares the star of its beginning, or one up to a line's end. */
  datatype Filler = Blank(x: char) | Comment(body: string) | StarComment | LineComment(body: string)

  function FillerText(f: Filler): string {
    match f
    case Blank(x) => [x]
    case Comment(body) => "/*" + body + "*/"
    case StarComment => "/*/"
    case LineComment(body) => "//" + body + "\n"
  }

  /** It does not close the comment; a slash at its beginning would. */
  predicate NotClosing(body: string) {
    && (body != "" ==> body[0] != '/')
    && forall k :: 0 < k < |body| ==> !(body[k - 1] == '*' && body[k] == '/')
  }

  predicate GoodFiller(c: Chars, f: Filler) {
    match f
    case Blank(x) => c.space(x)
    case Comment(body) => NotClosing(body)
    case StarComment => true
    case LineComment(body) => forall k :: 0 <= k < |body| ==> body[k] != '\n'
  }

  type Gap = seq<Filler>

  function GapText(g: Gap): string {
    if g == [] then "" else FillerText(g[0]) + GapText(g[1..])
  }

  predicate GoodGap(c: Chars, g: Gap) {
    forall k :: 0 <= k < |g| ==> GoodFiller(c, g[k])
  }

  /** The tokens, with a gap behind each. */
  function Print(toks: seq<Token>, gaps: seq<Gap>): string
    requires |gaps| == |toks|
  {
    if toks == [] then "" else toks[0].val + GapText(gaps[0]) + Print(toks[1..], gaps[1..])
  }

  /** The character cannot be taken for more of the token. */
  predicate MayFollow(c: Chars, tok: Token, x: char) {
    match tok.typ
    case Keyword(w) => (w != "" && Mark(w[0])) || !KeyChar(x)
    case IdentToken => !NameChar(c, x)
    case ExtensionToken => !NameChar(c, x)
    case NumberToken => !c.digit(x) && x != '.'
    case StringToken => IsQuoted(tok.val) || c.space(x) || x == ';' || x == '{'
  }

  /** A gap between two tokens that would run into each other, and a blank first behind a string without quotes. */
  predicate Apart(c: Chars, tok: Token, g: Gap, next: Option<Token>) {
    && GoodGap(c, g)
    && (g == [] && next.Some? ==> next.value.val != "" && MayFollow(c, tok, next.value.val[0]))
    && (g != [] && tok.typ == StringToken && !IsQuoted(tok.val) ==> g[0].Blank?)
  }

  function After(toks: seq<Token>, k: nat): Option<Token> {
    if k + 1 < |toks| then Some(toks[k + 1]) else None
  }

  predicate Spaced(c: Chars, toks: seq<Token>, gaps: seq<Gap>)
    requires |gaps| == |toks|
  {
    forall k :: 0 <= k < |toks| ==> Apart(c, toks[k], gaps[k], After(toks, k))
  }
}
