/**
  How the evaluator reads an if-feature expression (meta/core.go:790-818). An `or` opens a bracket of its own, and
  every closing bracket closes only what was opened last, so what follows a bracketed `or` runs into the brackets.
  What comes of that for every expression, and which expressions come out right.
*/
module IfFeatureReading {
  import opened IfFeature

  // ---------- formulas ----------

  datatype Formula =
    | Var(name: string)
    | Minus(arg: Formula)
    | Conj(left: Formula, right: Formula)
    | Disj(left: Formula, right: Formula)

  predicate Holds(f: Formula, features: set<string>) {
    match f
    case Var(n) => n in features
    case Minus(a) => !Holds(a, features)
    case Conj(a, b) => Holds(a, features) && Holds(b, features)
    case Disj(a, b) => Holds(a, features) || Holds(b, features)
  }

  /** What the grammar says an expression means. */
  function ExprMeans(e: Expr): Formula
    decreases e
  {
    match e
    case Or(t, e1) => Disj(TermMeans(t), ExprMeans(e1))
    case Just(t) => TermMeans(t)
  }

  function TermMeans(t: Term): Formula
    decreases t
  {
    match t
    case And(f, t1) => MoreMeans(FactorMeans(f), t1)
    case One(f) => FactorMeans(f)
  }

  function MoreMeans(so: Formula, t: Term): Formula
    decreases t
  {
    match t
    case And(f, t1) => MoreMeans(Conj(so, FactorMeans(f)), t1)
    case One(f) => Conj(so, FactorMeans(f))
  }

  function FactorMeans(f: Factor): Formula
    decreases f
  {
    match f
    case Not(f1) => Minus(FactorMeans(f1))
    case Group(e) => ExprMeans(e)
    case Feature(n) => Var(n)
  }

  lemma {:induction false} ExprMeansRight(e: Expr, features: set<string>)
    ensures Holds(ExprMeans(e), features) == ExprHolds(e, features)
  {
    TermMeansRight(e.term, features);
    if e.Or? {
      ExprMeansRight(e.others, features);
    }
  }

  lemma {:induction false} TermMeansRight(t: Term, features: set<string>)
    ensures Holds(TermMeans(t), features) == TermHolds(t, features)
  {
    FactorMeansRight(t.factor, features);
    if t.And? {
      MoreMeansRight(FactorMeans(t.factor), t.others, features);
    }
  }

  lemma {:induction false} MoreMeansRight(so: Formula, t: Term, features: set<string>)
    ensures Holds(MoreMeans(so, t), features) == (Holds(so, features) && TermHolds(t, features))
    decreases t
  {
    FactorMeansRight(t.factor, features);
    if t.And? {
      MoreMeansRight(Conj(so, FactorMeans(t.factor)), t.others, features);
    }
  }

  lemma {:induction false} FactorMeansRight(f: Factor, features: set<string>)
    ensures Holds(FactorMeans(f), features) == FactorHolds(f, features)
  {
    match f
    case Not(f1) => FactorMeansRight(f1, features);
    case Group(e) => ExprMeansRight(e, features);
    case Feature(_) =>
  }

  // ---------- how the evaluator reads ----------

  /** Something that is still to be done to an operand: negate it, or join it to the operand on its left. */
  datatype Mark = Neg | With(left: Formula) | Either(left: Formula)

  /** What a bracket still does when it closes, the last of it first. */
  type Frame = seq<Mark>

  /**
    After some tokens: the brackets that are open (those of `or` included), innermost last, and the operand read last.
  */
  datatype Read = Read(frames: seq<Frame>, value: Formula)

  function Wrap(m: Mark, v: Formula): Formula {
    match m
    case Neg => Minus(v)
    case With(l) => Conj(l, v)
    case Either(l) => Disj(l, v)
  }

  function Apply(ms: Frame, v: Formula): Formula {
    if ms == [] then v else Wrap(ms[0], Apply(ms[1..], v))
  }

  function Flat(frames: seq<Frame>): Frame {
    if frames == [] then [] else frames[0] + Flat(frames[1..])
  }

  /** All brackets closed. */
  function Closed(r: Read): Formula {
    Apply(Flat(r.frames), r.value)
  }

  /** A closing bracket closes what was opened last, be it a bracket or an `or`. */
  function CloseLast(r: Read): Read
    requires r.frames != []
  {
    Read(r.frames[..|r.frames| - 1], Apply(r.frames[|r.frames| - 1], r.value))
  }

  function ReadExpr(e: Expr): Read
    decreases e
  {
    match e
    case Just(t) => ReadTerm(t)
    case Or(t, e1) =>
      var a, b := ReadTerm(t), ReadExpr(e1);
      Read(a.frames + [[Either(a.value)]] + b.frames, b.value)
  }

  function ReadTerm(t: Term): Read
    decreases t
  {
    match t
    case One(f) => ReadFactor([], f)
    case And(f, t1) => ReadMore(ReadFactor([], f), t1)
  }

  function ReadMore(a: Read, t: Term): Read
    decreases t
  {
    match t
    case One(f) => ReadAnd(a, f)
    case And(f, t1) => ReadMore(ReadAnd(a, f), t1)
  }

  /** One more factor: the conjunction is with the operand read last. */
  function ReadAnd(a: Read, f: Factor): Read
    decreases f, 1
  {
    var b := ReadFactor([With(a.value)], f);
    Read(a.frames + b.frames, b.value)
  }

  function ReadFactor(pre: Frame, f: Factor): Read
    decreases f, 0
  {
    match f
    case Feature(n) => Read([], Apply(pre, Var(n)))
    case Not(f1) => ReadFactor(pre + [Neg], f1)
    case Group(e) =>
      var inner := ReadExpr(e);
      CloseLast(Read([pre] + inner.frames, inner.value))
  }

  /** The formula that the evaluator computes: at the end of the text everything is closed. */
  function Reread(e: Expr): Formula {
    Closed(ReadExpr(e))
  }

  // ---------- the evaluator computes that ----------

  /** The operands on the stack that the marks join something to. */
  function PushLefts(k: Stack, ms: Frame, features: set<string>): Stack
    decreases |ms|
  {
    if ms == [] then k else PushLefts(PushLeft(k, ms[0], features), ms[1..], features)
  }

  function PushLeft(k: Stack, m: Mark, features: set<string>): Stack {
    match m
    case Neg => k
    case With(l) => Push(k, Holds(l, features))
    case Either(l) => Push(k, Holds(l, features))
  }

  ghost function DoMark(m: Mark, k: Stack): Stack {
    match m
    case Neg => Push(Pop(k), !Top(k))
    case With(_) => Both(k, true)
    case Either(_) => Both(k, false)
  }

  ghost function Do(ms: Frame, k: Stack): Stack {
    if ms == [] then k else DoMark(ms[0], Do(ms[1..], k))
  }

  function After(k: Stack, r: Read, features: set<string>): Stack {
    Push(PushLefts(k, Flat(r.frames), features), Holds(r.value, features))
  }

  lemma DoFirst(ms: Frame, k: Stack, v: Formula, features: set<string>)
    requires ms != []
    ensures forall s: Stack :: Do(ms, s) == DoMark(ms[0], Do(ms[1..], s))
    ensures PushLefts(k, ms, features) == PushLefts(PushLeft(k, ms[0], features), ms[1..], features)
    ensures Apply(ms, v) == Wrap(ms[0], Apply(ms[1..], v))
  {
  }

  lemma {:induction false} DoApplies(ms: Frame, k: Stack, v: Formula, features: set<string>)
    ensures Do(ms, Push(PushLefts(k, ms, features), Holds(v, features))) == Push(k, Holds(Apply(ms, v), features))
    decreases |ms|
  {
    if ms != [] {
      hide Do, PushLefts, Apply;
      DoFirst(ms, k, v, features);
      var b := Holds(Apply(ms[1..], v), features);
      match ms[0]
      case Neg =>
        DoApplies(ms[1..], k, v, features);
        PushedBoth(k, b, b);
      case With(l) =>
        DoApplies(ms[1..], Push(k, Holds(l, features)), v, features);
        PushedBoth(k, Holds(l, features), b);
      case Either(l) =>
        DoApplies(ms[1..], Push(k, Holds(l, features)), v, features);
        PushedBoth(k, Holds(l, features), b);
    }
  }

  lemma {:induction false} DoAppend(a: Frame, b: Frame, k: Stack)
    ensures Do(a + b, k) == Do(a, Do(b, k))
  {
    if a == [] {
      assert a + b == b;
    } else {
      assert (a + b)[1..] == a[1..] + b;
      DoAppend(a[1..], b, k);
    }
  }

  lemma {:induction false} LeftsAppend(k: Stack, a: Frame, b: Frame, features: set<string>)
    ensures PushLefts(k, a + b, features) == PushLefts(PushLefts(k, a, features), b, features)
    decreases |a|
  {
    if a == [] {
      assert a + b == b;
    } else {
      assert (a + b)[1..] == a[1..] + b;
      LeftsAppend(PushLeft(k, a[0], features), a[1..], b, features);
    }
  }

  lemma {:induction false} ApplyAppend(a: Frame, b: Frame, v: Formula)
    ensures Apply(a + b, v) == Apply(a, Apply(b, v))
  {
    if a == [] {
      assert a + b == b;
    } else {
      assert (a + b)[1..] == a[1..] + b;
      ApplyAppend(a[1..], b, v);
    }
  }

  lemma {:induction false} FlatAppend(a: seq<Frame>, b: seq<Frame>)
    ensures Flat(a + b) == Flat(a) + Flat(b)
  {
    if a == [] {
      assert a + b == b;
    } else {
      assert (a + b)[1..] == a[1..] + b;
      FlatAppend(a[1..], b);
    }
  }

  lemma FlatOne(ms: Frame)
    ensures Flat([ms]) == ms
  {
    assert [ms][1..] == [];
  }

  /** What is behind the end of the innermost bracket is read in the bracket around it, and so on. */
  ghost function Out(fs: seq<Frame>, r: Ran, features: set<string>): Ran
    decreases |fs|
  {
    if fs == [] then r else
      Out(fs[..|fs| - 1], Run(r.left, false, Do(fs[|fs| - 1], r.stack), features), features)
  }

  /** The same until the outermost of these brackets has been closed. */
  ghost function Drain(fs: seq<Frame>, rest: seq<string>, k: Stack, features: set<string>): Ran {
    if fs == [] then Ran(rest, k) else
      var r := Out(fs[1..], Run(rest, false, k, features), features);
      Ran(r.left, Do(fs[0], r.stack))
  }

  lemma {:induction false} OutAppend(a: seq<Frame>, b: seq<Frame>, r: Ran, features: set<string>)
    ensures Out(a + b, r, features) == Out(a, Out(b, r, features), features)
    decreases |b|
  {
    if b == [] {
      assert a + b == a;
    } else {
      assert (a + b)[..|a + b| - 1] == a + b[..|b| - 1];
      OutAppend(a, b[..|b| - 1], Run(r.left, false, Do(b[|b| - 1], r.stack), features), features);
    }
  }

  lemma DrainThenRun(fs: seq<Frame>, rest: seq<string>, k: Stack, features: set<string>)
    ensures var d := Drain(fs, rest, k, features);
            Run(d.left, false, d.stack, features) == Out(fs, Run(rest, false, k, features), features)
  {
    if fs != [] {
      var r := Run(rest, false, k, features);
      assert fs == [fs[0]] + fs[1..];
      OutAppend([fs[0]], fs[1..], r, features);
      OutOne(fs[0], Out(fs[1..], r, features), features);
    }
  }

  lemma OutOne(ms: Frame, r: Ran, features: set<string>)
    ensures Out([ms], r, features) == Run(r.left, false, Do(ms, r.stack), features)
  {
    assert [ms][..0] == [];
  }

  /**
    A factor, with what is pending on its left, is read as ReadFactor says; what follows goes into its open brackets.
  */
  lemma {:induction false} RunFactor(pre: Frame, f: Factor, rest: seq<string>, k: Stack, features: set<string>)
    requires FactorNames(f)
    ensures FactorTokens(f) + rest != [] && (FactorTokens(f) + rest)[0] != ")"
    ensures var o, r := RunOnce(FactorTokens(f) + rest, PushLefts(k, pre, features), features), ReadFactor(pre, f);
            Ran(o.left, Do(pre, o.stack)) == Drain(r.frames, rest, After(k, r, features), features)
    decreases f
  {
    var toks := FactorTokens(f) + rest;
    match f
    case Feature(n) =>
      assert toks[1..] == rest;
      DoApplies(pre, k, Var(n), features);
    case Not(f1) =>
      assert toks[1..] == FactorTokens(f1) + rest;
      RunFactor(pre + [Neg], f1, rest, k, features);
      RunNot(pre, f1, rest, k, features);
    case Group(e) =>
      GroupTokens(e, rest);
      RunExpr(e, [")"] + rest, PushLefts(k, pre, features), features);
      RunGroup(pre, e, rest, k, features);
  }

  lemma RunNot(pre: Frame, f: Factor, rest: seq<string>, k: Stack, features: set<string>)
    requires var toks := FactorTokens(f) + rest; toks != [] && toks[0] != ")"
    ensures var k1 := PushLefts(k, pre, features);
            var o := RunOnce(["not"] + (FactorTokens(f) + rest), k1, features);
            var o1 := RunOnce(FactorTokens(f) + rest, k1, features);
            Ran(o.left, Do(pre, o.stack)) == Ran(o1.left, Do(pre + [Neg], o1.stack))
    ensures PushLefts(k, pre + [Neg], features) == PushLefts(k, pre, features)
    ensures FactorTokens(Not(f)) + rest == ["not"] + (FactorTokens(f) + rest)
  {
    var toks := FactorTokens(f) + rest;
    assert FactorTokens(Not(f)) + rest == ["not"] + toks;
    hide *;
    NotStep(toks, PushLefts(k, pre, features), features);
    LeftsAppend(k, pre, [Neg], features);
    DoAppend(pre, [Neg], RunOnce(toks, PushLefts(k, pre, features), features).stack);
    NegAlone(PushLefts(k, pre, features), RunOnce(toks, PushLefts(k, pre, features), features).stack, features);
  }

  lemma NotStep(toks: seq<string>, k: Stack, features: set<string>)
    requires toks != [] && toks[0] != ")"
    ensures var o := RunOnce(toks, k, features);
            RunOnce(["not"] + toks, k, features) == Ran(o.left, DoMark(Neg, o.stack))
  {
    assert (["not"] + toks)[1..] == toks;
  }

  lemma NegAlone(k: Stack, s: Stack, features: set<string>)
    ensures PushLefts(k, [Neg], features) == k && Do([Neg], s) == DoMark(Neg, s)
  {
    assert [Neg][1..] == [];
  }

  lemma GroupTokens(e: Expr, rest: seq<string>)
    ensures FactorTokens(Group(e)) + rest == ["("] + (ExprTokens(e) + ([")"] + rest))
    ensures (["("] + (ExprTokens(e) + ([")"] + rest)))[1..] == ExprTokens(e) + ([")"] + rest)
  {
    hide ExprTokens;
  }

  /** The bracket that ends a group closes what was opened last in it. */
  lemma RunGroup(pre: Frame, e: Expr, rest: seq<string>, k: Stack, features: set<string>)
    requires var k1, inner := PushLefts(k, pre, features), ReadExpr(e);
             RunOnce(FactorTokens(Group(e)) + rest, k1, features)
             == Out(inner.frames, Run([")"] + rest, false, After(k1, inner, features), features), features)
    ensures var o := RunOnce(FactorTokens(Group(e)) + rest, PushLefts(k, pre, features), features);
            var r := ReadFactor(pre, Group(e));
            Ran(o.left, Do(pre, o.stack)) == Drain(r.frames, rest, After(k, r, features), features)
  {
    hide *;
    var k1, inner := PushLefts(k, pre, features), ReadExpr(e);
    var k2 := After(k1, inner, features);
    ClosesGroup(rest, k2, features);
    CloseLastIs(pre, e);
    if inner.frames == [] {
      AfterNone(pre, e, rest, k, features);
    } else {
      var n := |inner.frames| - 1;
      AfterClose(pre, inner, k, features);
      OutLast(inner.frames, n, Ran(rest, k2), features);
      DrainMore(pre, inner.frames[..n], rest, Do(inner.frames[n], k2), features);
    }
  }

  lemma AfterNone(pre: Frame, e: Expr, rest: seq<string>, k: Stack, features: set<string>)
    requires ReadExpr(e).frames == []
    ensures var k2, v := After(PushLefts(k, pre, features), ReadExpr(e), features), ReadExpr(e).value;
            && Out([], Ran(rest, k2), features) == Ran(rest, k2)
            && Drain([], rest, After(k, Read([], Apply(pre, v)), features), features) == Ran(rest, Do(pre, k2))
  {
    DoApplies(pre, k, ReadExpr(e).value, features);
  }

  lemma ClosesGroup(rest: seq<string>, k: Stack, features: set<string>)
    ensures Run([")"] + rest, false, k, features) == Ran(rest, k)
  {
    assert ([")"] + rest)[1..] == rest;
  }

  lemma OutLast(fs: seq<Frame>, n: nat, r: Ran, features: set<string>)
    requires |fs| == n + 1
    ensures Out(fs, r, features) == Out(fs[..n], Run(r.left, false, Do(fs[n], r.stack), features), features)
  {
  }

  lemma DrainMore(pre: Frame, fs: seq<Frame>, rest: seq<string>, k: Stack, features: set<string>)
    ensures var r := Out(fs, Run(rest, false, k, features), features);
            Drain([pre] + fs, rest, k, features) == Ran(r.left, Do(pre, r.stack))
  {
    assert ([pre] + fs)[1..] == fs;
  }

  lemma CloseLastIs(pre: Frame, e: Expr)
    ensures var inner := ReadExpr(e);
            && (inner.frames == [] ==> ReadFactor(pre, Group(e)) == Read([], Apply(pre, inner.value)))
            && (inner.frames != [] ==>
                  var n := |inner.frames| - 1;
                  ReadFactor(pre, Group(e)) == Read([pre] + inner.frames[..n], Apply(inner.frames[n], inner.value)))
  {
  }

  lemma AfterClose(pre: Frame, inner: Read, k: Stack, features: set<string>)
    requires inner.frames != []
    ensures var n := |inner.frames| - 1;
            var r := Read([pre] + inner.frames[..n], Apply(inner.frames[n], inner.value));
            After(k, r, features) == Do(inner.frames[n], After(PushLefts(k, pre, features), inner, features))
  {
    var n := |inner.frames| - 1;
    var fs, top := inner.frames[..n], inner.frames[n];
    var k1 := PushLefts(k, pre, features);
    assert inner.frames == fs + [top];
    FlatAppend(fs, [top]);
    FlatOne(top);
    LeftsAppend(k1, Flat(fs), top, features);
    DoApplies(top, PushLefts(k1, Flat(fs), features), inner.value, features);
    FlatAppend([pre], fs);
    FlatOne(pre);
    LeftsAppend(k, pre, Flat(fs), features);
  }

  lemma {:induction false} RunExpr(e: Expr, rest: seq<string>, k: Stack, features: set<string>)
    requires ExprNames(e)
    ensures var r := ReadExpr(e);
            Run(ExprTokens(e) + rest, false, k, features)
              == Out(r.frames, Run(rest, false, After(k, r, features), features), features)
    decreases e
  {
    match e
    case Just(t) => RunTerm(t, rest, k, features);
    case Or(t, e1) =>
      var more := ["or"] + (ExprTokens(e1) + rest);
      var a, b := ReadTerm(t), ReadExpr(e1);
      assert ExprTokens(e) + rest == TermTokens(t) + more;
      RunTerm(t, more, k, features);
      var k1 := After(k, a, features);
      RunExpr(e1, rest, k1, features);
      RunOr(ExprTokens(e1) + rest, k1, a.value, features);
      OutAppend(a.frames + [[Either(a.value)]], b.frames, Run(rest, false, After(k1, b, features), features), features);
      OutAppend(a.frames, [[Either(a.value)]], Run(ExprTokens(e1) + rest, false, k1, features), features);
      AfterOr(k, a, b, features);
  }

  lemma RunOr(toks: seq<string>, k: Stack, left: Formula, features: set<string>)
    ensures Run(["or"] + toks, false, k, features) == Out([[Either(left)]], Run(toks, false, k, features), features)
  {
    var r := Run(toks, false, k, features);
    assert (["or"] + toks)[1..] == toks;
    OutOne([Either(left)], r, features);
    assert [Either(left)][1..] == [];
    assert Do([Either(left)], r.stack) == Both(r.stack, false);
  }

  lemma AfterOr(k: Stack, a: Read, b: Read, features: set<string>)
    ensures After(After(k, a, features), b, features)
         == After(k, Read(a.frames + [[Either(a.value)]] + b.frames, b.value), features)
  {
    FlatAppend(a.frames + [[Either(a.value)]], b.frames);
    FlatAppend(a.frames, [[Either(a.value)]]);
    FlatOne([Either(a.value)]);
    var k1 := PushLefts(k, Flat(a.frames), features);
    LeftsAppend(k, Flat(a.frames) + [Either(a.value)], Flat(b.frames), features);
    LeftsAppend(k, Flat(a.frames), [Either(a.value)], features);
    assert [Either(a.value)][1..] == [];
    assert PushLefts(k1, [Either(a.value)], features) == Push(k1, Holds(a.value, features));
  }

  lemma {:induction false} RunTerm(t: Term, rest: seq<string>, k: Stack, features: set<string>)
    requires TermNames(t)
    ensures var r := ReadTerm(t);
            Run(TermTokens(t) + rest, false, k, features)
              == Out(r.frames, Run(rest, false, After(k, r, features), features), features)
    decreases t, 1
  {
    var f := t.factor;
    var a := ReadFactor([], f);
    var more := if t.And? then ["and"] + (TermTokens(t.others) + rest) else rest;
    assert TermTokens(t) + rest == FactorTokens(f) + more;
    RunFactor([], f, more, k, features);
    DrainThenRun(a.frames, more, After(k, a, features), features);
    if t.And? {
      RunMore(a, t.others, rest, k, features);
    }
  }

  lemma {:induction false} RunMore(a: Read, t: Term, rest: seq<string>, k: Stack, features: set<string>)
    requires TermNames(t)
    ensures var r := ReadMore(a, t);
            Out(a.frames, Run(["and"] + (TermTokens(t) + rest), false, After(k, a, features), features), features)
            == Out(r.frames, Run(rest, false, After(k, r, features), features), features)
    decreases t, 0
  {
    var f := t.factor;
    var c := ReadAnd(a, f);
    var more := if t.And? then ["and"] + (TermTokens(t.others) + rest) else rest;
    assert TermTokens(t) + rest == FactorTokens(f) + more;
    RunFactor([With(a.value)], f, more, PushLefts(k, Flat(a.frames), features), features);
    RunAnd(a, f, more, k, features);
    if t.And? {
      RunMore(c, t.others, rest, k, features);
    }
  }

  lemma RunAnd(a: Read, f: Factor, more: seq<string>, k: Stack, features: set<string>)
    requires FactorTokens(f) + more != [] && (FactorTokens(f) + more)[0] != ")"
    requires var pre, k1 := [With(a.value)], PushLefts(k, Flat(a.frames), features);
             var o, b := RunOnce(FactorTokens(f) + more, PushLefts(k1, pre, features), features), ReadFactor(pre, f);
             Ran(o.left, Do(pre, o.stack)) == Drain(b.frames, more, After(k1, b, features), features)
    ensures var c := ReadAnd(a, f);
            Out(a.frames, Run(["and"] + (FactorTokens(f) + more), false, After(k, a, features), features), features)
            == Out(c.frames, Run(more, false, After(k, c, features), features), features)
  {
    var pre, k1 := [With(a.value)], PushLefts(k, Flat(a.frames), features);
    var b, c := ReadFactor(pre, f), ReadAnd(a, f);
    var toks := FactorTokens(f) + more;
    assert (["and"] + toks)[1..] == toks && pre[1..] == [];
    assert PushLefts(k1, pre, features) == After(k, a, features);
    var o := RunOnce(toks, After(k, a, features), features);
    assert Do(pre, o.stack) == Both(o.stack, true);
    assert RunOnce(["and"] + toks, After(k, a, features), features) == Ran(o.left, Do(pre, o.stack));
    DrainThenRun(b.frames, more, After(k1, b, features), features);
    OutAppend(a.frames, b.frames, Run(more, false, After(k1, b, features), features), features);
    FlatAppend(a.frames, b.frames);
    LeftsAppend(k, Flat(a.frames), Flat(b.frames), features);
  }

  /** For every expression the evaluator computes the formula it rereads, without an error. */
  lemma EvaluatesReread(e: Expr, s: string, features: set<string>)
    requires ExprNames(e) && Tokens(s) == ExprTokens(e)
    ensures Verdict(Run(Tokens(s), false, Stack([], false), features).stack) == Value(Holds(Reread(e), features))
  {
    var k, r := Stack([], false), ReadExpr(e);
    assert ExprTokens(e) + [] == ExprTokens(e);
    RunExpr(e, [], k, features);
    OutOfText(r.frames, k, r.value, features);
  }

  lemma {:induction false} OutOfText(fs: seq<Frame>, k: Stack, v: Formula, features: set<string>)
    ensures Out(fs, Run([], false, After(k, Read(fs, v), features), features), features)
            == Ran([], Push(k, Holds(Apply(Flat(fs), v), features)))
    decreases |fs|
  {
    if fs != [] {
      var n := |fs| - 1;
      var k1 := PushLefts(k, Flat(fs[..n]), features);
      assert fs == fs[..n] + [fs[n]];
      FlatAppend(fs[..n], [fs[n]]);
      FlatOne(fs[n]);
      LeftsAppend(k, Flat(fs[..n]), fs[n], features);
      DoApplies(fs[n], k1, v, features);
      ApplyAppend(Flat(fs[..n]), fs[n], v);
      OutOfText(fs[..n], k, Apply(fs[n], v), features);
    }
  }

  // ---------- blanks at the end ----------

  /** An operand too many stays on the stack, whatever is closed. */
  lemma {:induction false} OutWithMore(fs: seq<Frame>, k: Stack, v: Formula, b: bool, features: set<string>)
    ensures var r := Out(fs, Ran([], Push(After(k, Read(fs, v), features), b)), features);
            r.left == [] && |r.stack.values| == |k.values| + 2
    decreases |fs|
  {
    CountLefts(k, Flat(fs), features);
    OutCounts(fs, Push(After(k, Read(fs, v), features), b), |k.values| + 2, features);
  }

  function Joins(ms: Frame): nat {
    if ms == [] then 0 else (if ms[0].Neg? then 0 else 1) + Joins(ms[1..])
  }

  lemma {:induction false} CountLefts(k: Stack, ms: Frame, features: set<string>)
    ensures |PushLefts(k, ms, features).values| == |k.values| + Joins(ms)
    decreases |ms|
  {
    if ms != [] {
      CountLefts(PushLeft(k, ms[0], features), ms[1..], features);
    }
  }

  lemma {:induction false} CountDo(ms: Frame, k: Stack)
    requires |k.values| > Joins(ms)
    ensures |Do(ms, k).values| == |k.values| - Joins(ms)
  {
    if ms != [] {
      CountDo(ms[1..], k);
    }
  }

  lemma {:induction false} JoinsAppend(a: Frame, b: Frame)
    ensures Joins(a + b) == Joins(a) + Joins(b)
  {
    if a == [] {
      assert a + b == b;
    } else {
      assert (a + b)[1..] == a[1..] + b;
      JoinsAppend(a[1..], b);
    }
  }

  lemma {:induction false} OutCounts(fs: seq<Frame>, k: Stack, n: nat, features: set<string>)
    requires n > 0 && |k.values| == n + Joins(Flat(fs))
    ensures var r := Out(fs, Ran([], k), features); r.left == [] && |r.stack.values| == n
    decreases |fs|
  {
    if fs != [] {
      var m := |fs| - 1;
      assert fs == fs[..m] + [fs[m]];
      FlatAppend(fs[..m], [fs[m]]);
      FlatOne(fs[m]);
      JoinsAppend(Flat(fs[..m]), fs[m]);
      CountDo(fs[m], k);
      OutCounts(fs[..m], Do(fs[m], k), n, features);
    }
  }

  lemma {:induction false} LastToken(e: Expr)
    requires ExprNames(e)
    ensures ExprTokens(e) != [] && ExprTokens(e)[|ExprTokens(e)| - 1] != ""
  {
    LastTermToken(e.term);
    if e.Or? {
      LastToken(e.others);
    }
  }

  lemma {:induction false} LastTermToken(t: Term)
    requires TermNames(t)
    ensures TermTokens(t) != [] && TermTokens(t)[|TermTokens(t)| - 1] != ""
  {
    LastFactorToken(t.factor);
    if t.And? {
      LastTermToken(t.others);
    }
  }

  lemma {:induction false} LastFactorToken(f: Factor)
    requires FactorNames(f)
    ensures FactorTokens(f) != [] && FactorTokens(f)[|FactorTokens(f)| - 1] != ""
  {
    if f.Not? {
      LastFactorToken(f.factor);
    }
  }

  /** The text of an expression is an error if and only if a blank comes last. */
  lemma BlankIsError(e: Expr, s: string, n: nat, features: set<string>)
    requires ExprNames(e) && Tokens(s) == ExprTokens(e)
    ensures Verdict(Run(Tokens(Blanked(s, n)), false, Stack([], false), features).stack) == SyntaxError <==> n > 0
  {
    if n == 0 {
      assert Blanked(s, 0) == s;
      EvaluatesReread(e, s, features);
    } else {
      LastToken(e);
      NoBlankAtEnd(s);
      BlanksAreToken(s, n);
      var k, r := Stack([], false), ReadExpr(e);
      RunExpr(e, [""], k, features);
      var k1 := After(k, r, features);
      assert [""][1..] == [];
      assert Run([""], false, k1, features) == Ran([], Push(k1, "" in features));
      OutWithMore(r.frames, k, r.value, "" in features, features);
    }
  }
}
