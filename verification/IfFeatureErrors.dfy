/** Expressions that lack an operand or have one too many are reported as errors. */
module IfFeatureErrors {
  import opened IfFeature

  /** How many more operands there are after a token. */
  function Operands(tok: string): int {
    if tok == "and" || tok == "or" then -1 else if tok == "not" || tok == "(" || tok == ")" then 0 else 1
  }

  function Balance(toks: seq<string>): int {
    if toks == [] then 0 else Operands(toks[0]) + Balance(toks[1..])
  }

  /** How many brackets more are opened than closed. */
  function Level(toks: seq<string>): int {
    if toks == [] then 0 else (if toks[0] == "(" then 1 else if toks[0] == ")" then -1 else 0) + Level(toks[1..])
  }

  /** No bracket is closed that is not open. */
  ghost predicate Bracketed(toks: seq<string>) {
    forall n :: 0 <= n <= |toks| ==> Level(toks[..n]) >= 0
  }

  lemma {:induction false} BalanceAppend(a: seq<string>, b: seq<string>)
    ensures Balance(a + b) == Balance(a) + Balance(b) && Level(a + b) == Level(a) + Level(b)
  {
    if a == [] {
      assert a + b == b;
    } else {
      assert (a + b)[1..] == a[1..] + b;
      BalanceAppend(a[1..], b);
    }
  }

  // ---------- operands on the stack ----------

  /** Unless one was missing, the operands have become more by the balance of what has been read. */
  ghost predicate Counted(toks: seq<string>, k: Stack, r: Ran) {
    r.stack.failed || (!k.failed && |r.stack.values| == |k.values| + Balance(toks) - Balance(r.left))
  }

  lemma {:induction false} RunCounts(toks: seq<string>, greedy: bool, k: Stack, features: set<string>)
    ensures Counted(toks, k, Run(toks, greedy, k, features)) || k.failed
    ensures k.failed ==> Run(toks, greedy, k, features).stack.failed
    decreases |toks|, 1
  {
    if toks != [] && toks[0] != ")" {
      RunOnceCounts(toks, k, features);
      var once := RunOnce(toks, k, features);
      if !greedy {
        RunCounts(once.left, false, once.stack, features);
      }
    }
  }

  lemma {:induction false} RunOnceCounts(toks: seq<string>, k: Stack, features: set<string>)
    requires toks != [] && toks[0] != ")"
    ensures Counted(toks, k, RunOnce(toks, k, features)) || k.failed
    ensures k.failed ==> RunOnce(toks, k, features).stack.failed
    decreases |toks|, 0
  {
    hide Run;
    match toks[0]
    case "(" => RunCounts(toks[1..], false, k, features);
    case "and" => RunCounts(toks[1..], true, k, features);
    case "not" => RunCounts(toks[1..], true, k, features);
    case "or" => RunCounts(toks[1..], false, k, features);
    case _ =>
  }

  // ---------- all tokens are read ----------

  lemma {:induction false} RunLevel(toks: seq<string>, greedy: bool, k: Stack, features: set<string>)
    ensures var left := Run(toks, greedy, k, features).left;
            && left <= toks[|toks| - |left|..]
            && (left != [] ==> Level(toks) - Level(left) <= if greedy then 0 else -1)
    decreases |toks|, 1
  {
    if toks != [] && toks[0] != ")" {
      RunOnceLevel(toks, k, features);
      var once := RunOnce(toks, k, features);
      if !greedy {
        RunLevel(once.left, false, once.stack, features);
      }
    }
  }

  lemma {:induction false} RunOnceLevel(toks: seq<string>, k: Stack, features: set<string>)
    requires toks != [] && toks[0] != ")"
    ensures var left := RunOnce(toks, k, features).left;
            left <= toks[|toks| - |left|..] && (left != [] ==> Level(toks) - Level(left) <= 0)
    decreases |toks|, 0
  {
    hide Run;
    match toks[0]
    case "(" => RunLevel(toks[1..], false, k, features);
    case "and" => RunLevel(toks[1..], true, k, features);
    case "not" => RunLevel(toks[1..], true, k, features);
    case "or" => RunLevel(toks[1..], false, k, features);
    case _ =>
  }

  lemma AllIsRead(toks: seq<string>, k: Stack, features: set<string>)
    requires Bracketed(toks)
    ensures Run(toks, false, k, features).left == []
  {
    RunLevel(toks, false, k, features);
    var left := Run(toks, false, k, features).left;
    var n := |toks| - |left|;
    assert toks == toks[..n] + toks[n..] && toks[n..] == left;
    BalanceAppend(toks[..n], left);
  }

  /** There is no value unless there is exactly one operand more than `and` and `or` together. */
  lemma WrongCountIsError(toks: seq<string>, features: set<string>)
    requires Bracketed(toks) && Balance(toks) != 1
    ensures Verdict(Run(toks, false, Stack([], false), features).stack) == SyntaxError
  {
    AllIsRead(toks, Stack([], false), features);
    RunCounts(toks, false, Stack([], false), features);
    hide Run;
  }

  // ---------- expressions ----------

  lemma {:induction false} ExprCounts(e: Expr)
    requires ExprNames(e)
    ensures Balance(ExprTokens(e)) == 1 && Level(ExprTokens(e)) == 0
    decreases e
  {
    match e
    case Just(t) => TermCounts(t);
    case Or(t, e1) =>
      TermCounts(t);
      ExprCounts(e1);
      BalanceAppend(["or"], ExprTokens(e1));
      BalanceAppend(TermTokens(t), ["or"] + ExprTokens(e1));
  }

  lemma {:induction false} TermCounts(t: Term)
    requires TermNames(t)
    ensures Balance(TermTokens(t)) == 1 && Level(TermTokens(t)) == 0
    decreases t
  {
    match t
    case One(f) => FactorCounts(f);
    case And(f, t1) =>
      FactorCounts(f);
      TermCounts(t1);
      BalanceAppend(["and"], TermTokens(t1));
      BalanceAppend(FactorTokens(f), ["and"] + TermTokens(t1));
  }

  lemma {:induction false} FactorCounts(f: Factor)
    requires FactorNames(f)
    ensures Balance(FactorTokens(f)) == 1 && Level(FactorTokens(f)) == 0
    decreases f
  {
    match f
    case Feature(name) =>
    case Not(f1) =>
      FactorCounts(f1);
      BalanceAppend(["not"], FactorTokens(f1));
    case Group(e) =>
      ExprCounts(e);
      BalanceAppend(ExprTokens(e), [")"]);
      BalanceAppend(["("], ExprTokens(e) + [")"]);
  }

  lemma BracketedBoth(a: seq<string>, b: seq<string>)
    requires Bracketed(a) && Bracketed(b)
    ensures Bracketed(a + b)
  {
    forall n | 0 <= n <= |a + b| ensures Level((a + b)[..n]) >= 0 {
      if n <= |a| {
        assert (a + b)[..n] == a[..n];
      } else {
        assert (a + b)[..n] == a[..|a|] + b[..n - |a|];
        BalanceAppend(a[..|a|], b[..n - |a|]);
      }
    }
  }

  lemma BracketedGroup(s: seq<string>)
    requires Bracketed(s) && Level(s) == 0
    ensures Bracketed(["("] + (s + [")"]))
  {
    var all := ["("] + (s + [")"]);
    forall n | 0 <= n <= |all| ensures Level(all[..n]) >= 0 {
      if 0 < n <= 1 + |s| {
        assert all[..n] == ["("] + s[..n - 1];
        BalanceAppend(["("], s[..n - 1]);
      } else if n == |all| {
        assert all[..n] == ["("] + (s + [")"]);
        BalanceAppend(s, [")"]);
        BalanceAppend(["("], s + [")"]);
      }
    }
  }

  lemma BracketedWord(w: string)
    requires w != "(" && w != ")"
    ensures Bracketed([w])
  {
    assert [w][..0] == [] && [w][..1] == [w] && [w][1..] == [];
  }

  lemma {:induction false} ExprBracketed(e: Expr)
    requires ExprNames(e)
    ensures Bracketed(ExprTokens(e))
    decreases e
  {
    hide Bracketed;
    match e
    case Just(t) => TermBracketed(t);
    case Or(t, e1) =>
      TermBracketed(t);
      ExprBracketed(e1);
      BracketedWord("or");
      BracketedBoth(["or"], ExprTokens(e1));
      BracketedBoth(TermTokens(t), ["or"] + ExprTokens(e1));
  }

  lemma {:induction false} TermBracketed(t: Term)
    requires TermNames(t)
    ensures Bracketed(TermTokens(t))
    decreases t
  {
    hide Bracketed;
    match t
    case One(f) => FactorBracketed(f);
    case And(f, t1) =>
      FactorBracketed(f);
      TermBracketed(t1);
      BracketedWord("and");
      BracketedBoth(["and"], TermTokens(t1));
      BracketedBoth(FactorTokens(f), ["and"] + TermTokens(t1));
  }

  lemma {:induction false} FactorBracketed(f: Factor)
    requires FactorNames(f)
    ensures Bracketed(FactorTokens(f))
    decreases f
  {
    hide Bracketed;
    match f
    case Feature(name) => BracketedWord(name);
    case Not(f1) =>
      FactorBracketed(f1);
      BracketedWord("not");
      BracketedBoth(["not"], FactorTokens(f1));
    case Group(e) =>
      ExprBracketed(e);
      ExprCounts(e);
      BracketedGroup(ExprTokens(e));
  }

  /** An expression from which one feature has been left out is an error, whatever the features are. */
  lemma LeftOutIsError(e: Expr, i: nat, features: set<string>)
    requires ExprNames(e) && i < |ExprTokens(e)| && ExprTokens(e)[i] !in ["and", "or", "not", "(", ")"]
    ensures var toks := ExprTokens(e)[..i] + ExprTokens(e)[i + 1..];
            Verdict(Run(toks, false, Stack([], false), features).stack) == SyntaxError
  {
    ExprCounts(e);
    ExprBracketed(e);
    WithoutOne(ExprTokens(e), i);
    WrongCountIsError(ExprTokens(e)[..i] + ExprTokens(e)[i + 1..], features);
  }

  lemma WithoutOne(toks: seq<string>, i: nat)
    requires i < |toks| && Operands(toks[i]) == 1 && Bracketed(toks)
    ensures Bracketed(toks[..i] + toks[i + 1..]) && Balance(toks[..i] + toks[i + 1..]) == Balance(toks) - 1
  {
    var a, w, b := toks[..i], toks[i], toks[i + 1..];
    assert toks == a + ([w] + b);
    hide Bracketed, Operands;
    Around(a, w, b);
    forall n: nat | n <= |a + b| ensures Level((a + b)[..n]) >= 0 {
      if n <= i {
        BracketedAt(toks, n);
        assert (a + b)[..n] == toks[..n];
      } else {
        BracketedAt(toks, n + 1);
        assert (a + b)[..n] == a + b[..n - i] && toks[..n + 1] == a + ([w] + b[..n - i]);
        Around(a, w, b[..n - i]);
      }
    }
    BracketedIs(a + b);
  }

  lemma BracketedAt(toks: seq<string>, n: nat)
    requires Bracketed(toks) && n <= |toks|
    ensures Level(toks[..n]) >= 0
  {
  }

  lemma BracketedIs(toks: seq<string>)
    requires forall n: nat :: n <= |toks| ==> Level(toks[..n]) >= 0
    ensures Bracketed(toks)
  {
  }

  lemma Around(a: seq<string>, w: string, b: seq<string>)
    requires Operands(w) == 1
    ensures Balance(a + ([w] + b)) == Balance(a + b) + 1 && Level(a + ([w] + b)) == Level(a + b)
  {
    assert [w][1..] == [] && Level([w]) == 0;
    BalanceAppend([w], b);
    BalanceAppend(a, [w] + b);
    BalanceAppend(a, b);
  }
}
