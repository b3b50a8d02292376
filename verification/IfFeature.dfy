/**
  The evaluator of if-feature expressions (meta/core.go): a recursive loop over the tokens of a string that keeps
  operands on a stack. The grammar and its meaning are those of section 7.20.2 of RFC 7950.
*/
module IfFeature {

  // ---------- the language ----------

  datatype Expr = Or(term: Term, others: Expr) | Just(term: Term)
  datatype Term = And(factor: Factor, others: Term) | One(factor: Factor)
  datatype Factor = Not(factor: Factor) | Group(expr: Expr) | Feature(name: string)

  predicate ExprHolds(e: Expr, features: set<string>) {
    match e
    case Or(t, e1) => TermHolds(t, features) || ExprHolds(e1, features)
    case Just(t) => TermHolds(t, features)
  }

  predicate TermHolds(t: Term, features: set<string>) {
    match t
    case And(f, t1) => FactorHolds(f, features) && TermHolds(t1, features)
    case One(f) => FactorHolds(f, features)
  }

  predicate FactorHolds(f: Factor, features: set<string>) {
    match f
    case Not(f1) => !FactorHolds(f1, features)
    case Group(e) => ExprHolds(e, features)
    case Feature(name) => name in features
  }

  function ExprTokens(e: Expr): seq<string> {
    match e
    case Or(t, e1) => TermTokens(t) + (["or"] + ExprTokens(e1))
    case Just(t) => TermTokens(t)
  }

  function TermTokens(t: Term): seq<string> {
    match t
    case And(f, t1) => FactorTokens(f) + (["and"] + TermTokens(t1))
    case One(f) => FactorTokens(f)
  }

  function FactorTokens(f: Factor): seq<string> {
    match f
    case Not(f1) => ["not"] + FactorTokens(f1)
    case Group(e) => ["("] + (ExprTokens(e) + [")"])
    case Feature(name) => [name]
  }

  /** The feature names are no keywords or brackets. */
  predicate ExprNames(e: Expr) {
    match e
    case Or(t, e1) => TermNames(t) && ExprNames(e1)
    case Just(t) => TermNames(t)
  }

  predicate TermNames(t: Term) {
    match t
    case And(f, t1) => FactorNames(f) && TermNames(t1)
    case One(f) => FactorNames(f)
  }

  predicate FactorNames(f: Factor) {
    match f
    case Not(f1) => FactorNames(f1)
    case Group(e) => ExprNames(e)
    case Feature(name) =>
      name !in {"", "and", "or", "not", "(", ")"} && (forall i :: 0 <= i < |name| ==> name[i] !in " ()")
  }

  // ---------- tokens of a string ----------

  function SkipBlanks(s: string): (r: string)
    ensures |r| <= |s|
  {
    if s != "" && s[0] == ' ' then SkipBlanks(s[1..]) else s
  }

  /** How far a word goes. */
  function WordLength(s: string): (n: nat)
    ensures n <= |s|
  {
    if s == "" || s[0] in " ()" then 0 else 1 + WordLength(s[1..])
  }

  function TokenLength(s: string): (n: nat)
    ensures n <= |s| && (s != "" && s[0] != ' ' ==> n > 0)
  {
    if s != "" && s[0] in "()" then 1 else WordLength(s)
  }

  /** The tokens that a string is read as; blanks at its end count as an empty one. */
  function Tokens(s: string): seq<string>
    decreases |s|
  {
    if s == "" then [] else
      var at := SkipBlanks(s);
      var n := TokenLength(at);
      [at[..n]] + Tokens(at[n..])
  }

  // ---------- what a run of the evaluator does ----------

  /** The operands, and whether one was missing. */
  datatype Stack = Stack(values: seq<bool>, failed: bool)

  function Push(k: Stack, b: bool): Stack {
    Stack(k.values + [b], k.failed)
  }

  function Top(k: Stack): bool {
    k.values != [] && k.values[|k.values| - 1]
  }

  function Pop(k: Stack): Stack {
    if k.values == [] then Stack([], true) else Stack(k.values[..|k.values| - 1], k.failed)
  }

  datatype Ran = Ran(left: seq<string>, stack: Stack)

  /** `eval`: takes tokens up to a closing bracket or the end, or (if `greedy`) just one operand. */
  ghost function Run(toks: seq<string>, greedy: bool, k: Stack, features: set<string>): (r: Ran)
    ensures |r.left| <= |toks| && (toks != [] ==> |r.left| < |toks|)
    decreases |toks|, 1
  {
    if toks == [] then Ran([], k)
    else if toks[0] == ")" then Ran(toks[1..], k)
    else
      var once := RunOnce(toks, k, features);
      if greedy then once else Run(once.left, false, once.stack, features)
  }

  ghost function RunOnce(toks: seq<string>, k: Stack, features: set<string>): (r: Ran)
    requires toks != []
    ensures |r.left| < |toks|
    decreases |toks|, 0
  {
    match toks[0]
    case "(" => Run(toks[1..], false, k, features)
    case "and" =>
      var r := Run(toks[1..], true, k, features);
      Ran(r.left, Both(r.stack, true))
    case "not" =>
      var r := Run(toks[1..], true, k, features);
      Ran(r.left, Push(Pop(r.stack), !Top(r.stack)))
    case "or" =>
      var r := Run(toks[1..], false, k, features);
      Ran(r.left, Both(r.stack, false))
    case name => Ran(toks[1..], Push(k, name in features))
  }

  /** The two topmost operands are replaced by their conjunction or disjunction. */
  ghost function Both(k: Stack, and: bool): Stack {
    var a, b := Top(k), Top(Pop(k));
    Push(Pop(Pop(k)), if and then a && b else a || b)
  }

  lemma PushedBoth(k: Stack, a: bool, b: bool)
    ensures Both(Push(Push(k, a), b), true) == Push(k, a && b)
    ensures Both(Push(Push(k, a), b), false) == Push(k, a || b)
    ensures Pop(Push(k, a)) == k && Top(Push(k, a)) == a
  {
    assert Pop(Push(k, a)) == k;
    assert Pop(Push(Push(k, a), b)) == Push(k, a);
  }

  // ---------- the result ----------

  datatype Result = Value(holds: bool) | SyntaxError

  ghost function Verdict(k: Stack): Result {
    if k.values == [] || k.failed || |k.values| > 1 then SyntaxError else Value(Top(k))
  }

  // ---------- texts ----------

  predicate Word(w: string) {
    w != "" && forall i :: 0 <= i < |w| ==> w[i] !in " ()"
  }

  predicate Proper(w: string) {
    w == "(" || w == ")" || Word(w)
  }

  function Blanks(n: nat): (r: string)
    ensures |r| == n && forall i :: 0 <= i < n ==> r[i] == ' '
  {
    seq(n, i => ' ')
  }

  /** Tokens written with blanks before them; between two words there has to be at least one. */
  function Text(toks: seq<string>, gaps: seq<nat>): string
    requires |gaps| == |toks|
  {
    if toks == [] then "" else Blanks(gaps[0]) + toks[0] + Text(toks[1..], gaps[1..])
  }

  predicate Separate(toks: seq<string>, gaps: seq<nat>)
    requires |gaps| == |toks|
  {
    && (forall i :: 0 <= i < |toks| ==> Proper(toks[i]))
    && (forall i :: 0 < i < |toks| && gaps[i] == 0 ==> !Word(toks[i - 1]) || !Word(toks[i]))
  }

  lemma {:induction false} SkipAll(n: nat, s: string)
    ensures SkipBlanks(Blanks(n) + s) == SkipBlanks(s)
  {
    if n > 0 {
      SkipAll(n - 1, s);
      assert (Blanks(n) + s)[1..] == Blanks(n - 1) + s;
    } else {
      assert Blanks(0) + s == s;
    }
  }

  lemma {:induction false} WordEnds(w: string, s: string)
    requires forall i :: 0 <= i < |w| ==> w[i] !in " ()"
    requires s == "" || s[0] in " ()"
    ensures WordLength(w + s) == |w|
  {
    if w == "" {
      assert w + s == s;
    } else {
      WordEnds(w[1..], s);
      assert (w + s)[1..] == w[1..] + s;
    }
  }

  /** However they are spaced, a text is read as its tokens, provided that no blank comes last. */
  lemma {:induction false} TokensOfText(toks: seq<string>, gaps: seq<nat>)
    requires |gaps| == |toks| && Separate(toks, gaps)
    ensures Tokens(Text(toks, gaps)) == toks
  {
    if toks != [] {
      var w, more := toks[0], Text(toks[1..], gaps[1..]);
      FirstOfText(toks, gaps);
      SkipAll(gaps[0], w + more);
      assert (w + more)[..|w|] == w && (w + more)[|w|..] == more;
      TokensOfText(toks[1..], gaps[1..]);
      hide Separate, Text, TokenLength, SkipBlanks;
    }
  }

  lemma FirstOfText(toks: seq<string>, gaps: seq<nat>)
    requires |gaps| == |toks| && Separate(toks, gaps) && toks != []
    ensures Separate(toks[1..], gaps[1..]) && Proper(toks[0])
    ensures var w, more := toks[0], Text(toks[1..], gaps[1..]);
            && Text(toks, gaps) == Blanks(gaps[0]) + (w + more)
            && TokenLength(w + more) == |w| && SkipBlanks(w + more) == w + more
  {
    var w, more := toks[0], Text(toks[1..], gaps[1..]);
    assert forall i :: 0 <= i < |toks[1..]| ==> toks[1..][i] == toks[i + 1] && gaps[1..][i] == gaps[i + 1];
    assert Text(toks, gaps) == Blanks(gaps[0]) + (w + more);
    assert Proper(w);
    if Word(w) {
      MoreStarts(toks, gaps);
      WordEnds(w, more);
    }
  }

  lemma MoreStarts(toks: seq<string>, gaps: seq<nat>)
    requires |gaps| == |toks| && Separate(toks, gaps) && toks != [] && Word(toks[0])
    ensures var more := Text(toks[1..], gaps[1..]); more == "" || more[0] in " ()"
  {
    if |toks| > 1 {
      assert Proper(toks[1]) && toks[1..][0] == toks[1] && gaps[1..][0] == gaps[1];
    }
  }

  // ---------- a blank at the end ----------

  function Blanked(s: string, n: nat): string {
    s + Blanks(n)
  }

  lemma TokensStep(s: string)
    requires s != ""
    ensures var at := SkipBlanks(s); Tokens(s) == [at[..TokenLength(at)]] + Tokens(at[TokenLength(at)..])
  {
  }

  lemma OnlyBlanks(n: nat)
    requires n > 0
    ensures Tokens(Blanked("", n)) == Tokens("") + [""]
  {
    SkipAll(n, "");
    assert Blanked("", n) == Blanks(n) + "";
    assert SkipBlanks(Blanked("", n)) == SkipBlanks("") == "";
    assert Tokens(Blanked("", n)) == [""] + Tokens("");
  }

  lemma BlankedParts(at: string, k: nat, n: nat)
    requires k <= |at|
    ensures Blanked(at, n)[..k] == at[..k] && Blanked(at, n)[k..] == Blanked(at[k..], n)
  {
  }

  /** Blanks at the end are read as one empty token. */
  lemma {:induction false} BlanksAreToken(s: string, n: nat)
    requires n > 0
    requires s != "" ==> s[|s| - 1] != ' '
    ensures Tokens(Blanked(s, n)) == Tokens(s) + [""]
    decreases |s|
  {
    if s == "" {
      OnlyBlanks(n);
    } else {
      var at := SkipBlanks(s);
      var k := TokenLength(at);
      BlankSkips(s, n);
      BlankBreaks(at, n);
      assert Blanked(s, n) != "";
      hide *;
      TokensStep(s);
      TokensStep(Blanked(s, n));
      BlankedParts(at, k, n);
      BlanksAreToken(at[k..], n);
      Shift(at[..k], Tokens(at[k..]), Tokens(Blanked(at[k..], n)));
    }
  }

  lemma Shift(t: string, a: seq<string>, b: seq<string>)
    requires b == a + [""]
    ensures [t] + b == [t] + a + [""]
  {
  }

  lemma {:induction false} BlankSkips(s: string, n: nat)
    requires s != "" && s[|s| - 1] != ' '
    ensures var at := SkipBlanks(s);
            && SkipBlanks(Blanked(s, n)) == Blanked(at, n) && |at| <= |s| && at != "" && at[0] != ' '
               && TokenLength(at) > 0
            && var rest := at[TokenLength(at)..]; |rest| < |s| && (rest != "" ==> rest[|rest| - 1] != ' ')
  {
    if s[0] == ' ' {
      assert Blanked(s, n)[1..] == Blanked(s[1..], n);
      assert s[1..] != "" && s[1..][|s[1..]| - 1] == s[|s| - 1];
      BlankSkips(s[1..], n);
    }
  }

  lemma {:induction false} BlankBreaks(s: string, n: nat)
    ensures s != "" && s[0] != ' ' ==> TokenLength(Blanked(s, n)) == TokenLength(s)
    ensures WordLength(Blanked(s, n)) == WordLength(s)
  {
    if s != "" && s[0] !in " ()" {
      assert Blanked(s, n)[1..] == Blanked(s[1..], n);
      BlankBreaks(s[1..], n);
    }
  }

  /** A text whose last token is not empty does not end in a blank. */
  lemma {:induction false} NoBlankAtEnd(s: string)
    requires Tokens(s) != [] && Tokens(s)[|Tokens(s)| - 1] != ""
    ensures s != "" && s[|s| - 1] != ' '
    decreases |s|
  {
    var at := SkipBlanks(s);
    var k := TokenLength(at);
    SkipsToEnd(s);
    if at[k..] == "" {
      assert Tokens(s) == [at[..k]];
    } else {
      assert Tokens(s)[1..] == Tokens(at[k..]);
      NoBlankAtEnd(at[k..]);
    }
  }

  lemma {:induction false} SkipsToEnd(s: string)
    ensures var at := SkipBlanks(s);
            && |at| <= |s| && at == s[|s| - |at|..] && (at != "" ==> at[0] != ' ' && TokenLength(at) > 0)
            && (at != "" ==> forall i :: 0 <= i < TokenLength(at) ==> at[i] != ' ')
  {
    if s != "" && s[0] == ' ' {
      SkipsToEnd(s[1..]);
    } else {
      WordHasNoBlank(s);
    }
  }

  lemma {:induction false} WordHasNoBlank(s: string)
    ensures forall i :: 0 <= i < WordLength(s) ==> s[i] != ' '
  {
    if s != "" && s[0] !in " ()" {
      WordHasNoBlank(s[1..]);
      assert forall i :: 0 < i < |s| ==> s[i] == s[1..][i - 1];
    }
  }

  // ---------- the evaluator ----------

  class Evaluator {
    const features: set<string>
    const expr: string
    var stack: seq<bool>
    var pos: nat
    var failed: bool

    constructor (expr: string, features: set<string>)
      ensures this.expr == expr && this.features == features && Valid() && pos == 0 && Operands() == Stack([], false)
    {
      this.expr, this.features := expr, features;
      stack, pos, failed := [], 0, false;
    }

    ghost predicate Valid()
      reads this
    {
      pos <= |expr|
    }

    ghost function Operands(): Stack
      reads this
    {
      Stack(stack, failed)
    }

    ghost function Unread(): seq<string>
      reads this
      requires Valid()
    {
      Tokens(expr[pos..])
    }

    method EatBlanks()
      requires Valid()
      modifies this`pos
      ensures Valid() && expr[pos..] == SkipBlanks(expr[old(pos)..])
    {
      while pos < |expr| && expr[pos] == ' '
        invariant Valid() && SkipBlanks(expr[pos..]) == SkipBlanks(expr[old(pos)..])
      {
        assert expr[pos..][1..] == expr[pos + 1..];
        pos := pos + 1;
      }
    }

    method Next() returns (tok: string)
      requires Valid() && pos < |expr|
      modifies this`pos
      ensures Valid() && old(pos) < pos && old(Unread()) == [tok] + Unread()
    {
      ghost var before := expr[pos..];
      TokensStep(before);
      EatBlanks();
      ghost var at := expr[pos..];
      assert at == before || (at == SkipBlanks(before) && |at| < |before|);
      var start := pos;
      Token();
      tok := expr[start..pos];
      assert at[..pos - start] == tok && at[pos - start..] == expr[pos..];
    }

    method Token()
      requires Valid()
      modifies this`pos
      ensures Valid() && pos == old(pos) + TokenLength(expr[old(pos)..])
    {
      ghost var at := expr[pos..];
      if pos < |expr| && expr[pos] in "()" {
        pos := pos + 1;
        return;
      }
      while pos < |expr| && expr[pos] !in " ()"
        invariant old(pos) <= pos <= |expr|
        invariant WordLength(at) == pos - old(pos) + WordLength(expr[pos..])
      {
        assert expr[pos..][1..] == expr[pos + 1..];
        pos := pos + 1;
      }
    }

    method PopOperand() returns (b: bool)
      modifies this`stack, this`failed
      ensures b == Top(old(Operands())) && Operands() == Pop(old(Operands()))
    {
      if stack == [] {
        failed := true;
        return false;
      }
      b, stack := stack[|stack| - 1], stack[..|stack| - 1];
    }

    method PushOperand(b: bool)
      modifies this`stack
      ensures Operands() == Push(old(Operands()), b)
    {
      stack := stack + [b];
    }

    /** The evaluator's loop; on every input it comes to an end, for every token brings it forward. */
    method Eval(greedy: bool)
      requires Valid()
      modifies this
      ensures Valid() && old(pos) <= pos
      ensures Ran(Unread(), Operands()) == Run(old(Unread()), greedy, old(Operands()), features)
      decreases |expr| - pos, 0
    {
      while pos < |expr|
        invariant Valid() && old(pos) <= pos
        invariant Run(Unread(), greedy, Operands(), features) == Run(old(Unread()), greedy, old(Operands()), features)
        decreases |expr| - pos
      {
        ghost var toks, k := Unread(), Operands();
        var tok := Next();
        assert toks[1..] == Unread() && toks[0] == tok;
        if tok == ")" {
          return;
        }
        Once(tok);
        assert Ran(Unread(), Operands()) == RunOnce(toks, k, features);
        if greedy {
          return;
        }
      }
    }

    method Once(tok: string)
      requires Valid() && tok != ")"
      modifies this
      ensures Valid() && old(pos) <= pos
      ensures Ran(Unread(), Operands()) == RunOnce([tok] + old(Unread()), old(Operands()), features)
      decreases |expr| - pos, 1
    {
      assert ([tok] + Unread())[1..] == Unread();
      match tok
      case "(" => Eval(false);
      case "and" =>
        Eval(true);
        var a := PopOperand();
        var b := PopOperand();
        PushOperand(a && b);
      case "not" =>
        Eval(true);
        var a := PopOperand();
        PushOperand(!a);
      case "or" =>
        Eval(false);
        var a := PopOperand();
        var b := PopOperand();
        PushOperand(a || b);
      case _ =>
        PushOperand(tok in features);
    }

    method Evaluate() returns (r: Result)
      requires pos == 0 && Operands() == Stack([], false)
      modifies this
      ensures r == Verdict(Run(Tokens(expr), false, Stack([], false), features).stack)
    {
      assert expr[0..] == expr;
      Eval(false);
      ghost var k := Operands();
      var b := PopOperand();
      r := if failed || stack != [] then SyntaxError else Value(b);
      assert r == Verdict(k);
    }
  }
}
