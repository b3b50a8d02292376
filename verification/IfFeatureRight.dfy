/** Which if-feature expressions the evaluator gets right. */
module IfFeatureRight {
  import opened IfFeature
  import opened IfFeatureReading

  // ---------- the condition ----------

  /**
    Given `b`, what is pending yields `out`, whatever is on its left: a negation inverts, a conjunction passes a
    false operand on and nothing else, a disjunction a true one.
  */
  predicate Yields(ms: Frame, b: bool, out: bool) {
    if ms == [] then b == out
    else
      match ms[0]
      case Neg => Yields(ms[1..], b, !out)
      case With(_) => !out && Yields(ms[1..], b, false)
      case Either(_) => out && Yields(ms[1..], b, true)
  }

  /**
    Wherever an `and` follows, the brackets that should be closed by then but are still open let a false operand
    through; wherever an `or` follows, a true one.
  */
  predicate ExprRight(e: Expr)
    decreases e
  {
    match e
    case Just(t) => TermRight(t)
    case Or(t, e1) => TermRight(t) && Yields(Flat(ReadTerm(t).frames), true, true) && ExprRight(e1)
  }

  predicate TermRight(t: Term)
    decreases t
  {
    FactorRight(t.factor) && (t.And? ==> MoreRight(ReadFactor([], t.factor), t.others))
  }

  predicate MoreRight(a: Read, t: Term)
    decreases t
  {
    && Yields(Flat(a.frames), false, false) && FactorRight(t.factor)
    && (t.And? ==> MoreRight(ReadAnd(a, t.factor), t.others))
  }

  predicate FactorRight(f: Factor)
    decreases f
  {
    match f
    case Not(f1) => FactorRight(f1)
    case Group(e) => ExprRight(e)
    case Feature(_) => true
  }

  // ---------- what is reread, part by part ----------

  /** A factor by itself. */
  function Bare(f: Factor): Formula {
    Closed(ReadFactor([], f))
  }

  lemma {:induction false} ClosedFactor(pre: Frame, f: Factor)
    ensures Closed(ReadFactor(pre, f)) == Apply(pre, Bare(f))
    decreases f
  {
    match f
    case Feature(n) =>
    case Not(f1) =>
      ClosedFactor(pre + [Neg], f1);
      ClosedFactor([Neg], f1);
      assert [] + [Neg] == [Neg] && [Neg][1..] == [];
      ApplyAppend(pre, [Neg], Bare(f1));
    case Group(e) =>
      ClosedGroup(pre, e);
      ClosedGroup([], e);
  }

  lemma ClosedGroup(pre: Frame, e: Expr)
    ensures Closed(ReadFactor(pre, Group(e))) == Apply(pre, Reread(e))
  {
    var r := ReadExpr(e);
    CloseLastIs(pre, e);
    if r.frames != [] {
      var n := |r.frames| - 1;
      assert r.frames == r.frames[..n] + [r.frames[n]];
      FlatAppend(r.frames[..n], [r.frames[n]]);
      FlatOne(r.frames[n]);
      ApplyAppend(Flat(r.frames[..n]), r.frames[n], r.value);
      FlatAppend([pre], r.frames[..n]);
      FlatOne(pre);
      ApplyAppend(pre, Flat(r.frames[..n]), Apply(r.frames[n], r.value));
    }
  }

  /** What follows `and` or `or` goes into the brackets that are open. */
  lemma ClosedAnd(a: Read, f: Factor)
    ensures Closed(ReadAnd(a, f)) == Apply(Flat(a.frames), Conj(a.value, Bare(f)))
  {
    var b := ReadFactor([With(a.value)], f);
    ClosedFactor([With(a.value)], f);
    assert [With(a.value)][1..] == [];
    FlatAppend(a.frames, b.frames);
    ApplyAppend(Flat(a.frames), Flat(b.frames), b.value);
  }

  lemma ClosedOr(t: Term, e: Expr)
    ensures Reread(Or(t, e)) == Apply(Flat(ReadTerm(t).frames), Disj(ReadTerm(t).value, Reread(e)))
  {
    var a, b := ReadTerm(t), ReadExpr(e);
    var or := [Either(a.value)];
    FlatAppend(a.frames + [or], b.frames);
    FlatAppend(a.frames, [or]);
    FlatOne(or);
    ApplyAppend(Flat(a.frames) + or, Flat(b.frames), b.value);
    ApplyAppend(Flat(a.frames), or, Closed(b));
    assert or[1..] == [];
  }

  // ---------- marks as functions ----------

  predicate Effect(ms: Frame, b: bool, features: set<string>) {
    if ms == [] then b
    else
      match ms[0]
      case Neg => !Effect(ms[1..], b, features)
      case With(l) => Holds(l, features) && Effect(ms[1..], b, features)
      case Either(l) => Holds(l, features) || Effect(ms[1..], b, features)
  }

  lemma {:induction false} ApplyEffect(ms: Frame, v: Formula, features: set<string>)
    ensures Holds(Apply(ms, v), features) == Effect(ms, Holds(v, features), features)
  {
    if ms != [] {
      ApplyEffect(ms[1..], v, features);
    }
  }

  /** Conjunction, which false dominates, or disjunction, which true does. */
  predicate Join(dominant: bool, a: bool, b: bool) {
    if dominant then a || b else a && b
  }

  /** What yields the dominant operand of a join can change places with it. */
  lemma {:induction false} Commutes(ms: Frame, d: bool, out: bool, a: bool, b: bool, features: set<string>)
    requires Yields(ms, d, out)
    ensures Effect(ms, Join(d, a, b), features) == Join(out, Effect(ms, a, features), if d == out then b else !b)
  {
    if ms != [] {
      match ms[0]
      case Neg => Commutes(ms[1..], d, !out, a, b, features);
      case With(_) => Commutes(ms[1..], d, false, a, b, features);
      case Either(_) => Commutes(ms[1..], d, true, a, b, features);
    }
  }

  // ---------- if the condition holds, the reading is right ----------

  lemma {:induction false} ExprReadsRight(e: Expr, features: set<string>)
    requires ExprRight(e)
    ensures Holds(Reread(e), features) == Holds(ExprMeans(e), features)
    decreases e
  {
    TermReadsRight(e.term, features);
    if e.Or? {
      var a := ReadTerm(e.term);
      ExprReadsRight(e.others, features);
      ClosedOr(e.term, e.others);
      Joined(Flat(a.frames), a.value, Reread(e.others), true, features);
    }
  }

  /** With brackets pending that yield the dominant operand, joining inside them is joining outside. */
  lemma Joined(ms: Frame, v: Formula, x: Formula, d: bool, features: set<string>)
    requires Yields(ms, d, d)
    ensures Holds(Apply(ms, JoinOf(d, v, x)), features) == Join(d, Holds(Apply(ms, v), features), Holds(x, features))
  {
    ApplyEffect(ms, JoinOf(d, v, x), features);
    ApplyEffect(ms, v, features);
    Commutes(ms, d, d, Holds(v, features), Holds(x, features), features);
  }

  function JoinOf(d: bool, a: Formula, b: Formula): Formula {
    if d then Disj(a, b) else Conj(a, b)
  }

  lemma {:induction false} TermReadsRight(t: Term, features: set<string>)
    requires TermRight(t)
    ensures Holds(Closed(ReadTerm(t)), features) == Holds(TermMeans(t), features)
    decreases t
  {
    FactorReadsRight(t.factor, features);
    if t.And? {
      MoreReadsRight(ReadFactor([], t.factor), FactorMeans(t.factor), t.others, features);
    }
  }

  lemma {:induction false} MoreReadsRight(a: Read, so: Formula, t: Term, features: set<string>)
    requires MoreRight(a, t) && Holds(Closed(a), features) == Holds(so, features)
    ensures Holds(Closed(ReadMore(a, t)), features) == Holds(MoreMeans(so, t), features)
    decreases t
  {
    var f := t.factor;
    FactorReadsRight(f, features);
    ClosedAnd(a, f);
    Joined(Flat(a.frames), a.value, Bare(f), false, features);
    if t.And? {
      MoreReadsRight(ReadAnd(a, f), Conj(so, FactorMeans(f)), t.others, features);
    }
  }

  lemma {:induction false} FactorReadsRight(f: Factor, features: set<string>)
    requires FactorRight(f)
    ensures Holds(Bare(f), features) == Holds(FactorMeans(f), features)
    decreases f
  {
    match f
    case Feature(_) =>
    case Not(f1) =>
      FactorReadsRight(f1, features);
      BareNot(f1);
    case Group(e) =>
      ExprReadsRight(e, features);
      ClosedGroup([], e);
  }

  lemma BareNot(f: Factor)
    ensures Bare(Not(f)) == Minus(Bare(f))
  {
    ClosedFactor([Neg], f);
    assert [] + [Neg] == [Neg] && [Neg][1..] == [];
  }

  // ---------- with every name used once, only then ----------

  function Vars(f: Formula): set<string> {
    match f
    case Var(n) => {n}
    case Minus(a) => Vars(a)
    case Conj(a, b) => Vars(a) + Vars(b)
    case Disj(a, b) => Vars(a) + Vars(b)
  }

  predicate EachOnce(f: Formula) {
    match f
    case Var(_) => true
    case Minus(a) => EachOnce(a)
    case Conj(a, b) => EachOnce(a) && EachOnce(b) && Vars(a) !! Vars(b)
    case Disj(a, b) => EachOnce(a) && EachOnce(b) && Vars(a) !! Vars(b)
  }

  /** The features of `a` as far as `v` goes, those of `b` beyond. */
  function Mixed(a: set<string>, v: set<string>, b: set<string>): set<string> {
    (a * v) + (b - v)
  }

  lemma {:induction false} OnlyVars(f: Formula, a: set<string>, b: set<string>)
    requires forall n :: n in Vars(f) ==> (n in a <==> n in b)
    ensures Holds(f, a) == Holds(f, b)
  {
    match f
    case Var(_) =>
    case Minus(x) => OnlyVars(x, a, b);
    case Conj(x, y) =>
      OnlyVars(x, a, b);
      OnlyVars(y, a, b);
    case Disj(x, y) =>
      OnlyVars(x, a, b);
      OnlyVars(y, a, b);
  }

  /** A formula that uses each name once can be made true and made false. */
  lemma {:induction false} Settable(f: Formula, b: bool) returns (features: set<string>)
    requires EachOnce(f)
    ensures Holds(f, features) == b
  {
    match f
    case Var(n) => features := if b then {n} else {};
    case Minus(x) => features := Settable(x, !b);
    case Conj(x, y) =>
      var s := Settable(x, b);
      var t := Settable(y, b);
      features := Mixed(s, Vars(x), t);
      MixedHolds(x, y, s, t);
    case Disj(x, y) =>
      var s := Settable(x, b);
      var t := Settable(y, b);
      features := Mixed(s, Vars(x), t);
      MixedHolds(x, y, s, t);
  }

  lemma MixedHolds(x: Formula, y: Formula, s: set<string>, t: set<string>)
    requires Vars(x) !! Vars(y)
    ensures Holds(x, Mixed(s, Vars(x), t)) == Holds(x, s) && Holds(y, Mixed(s, Vars(x), t)) == Holds(y, t)
  {
    OnlyVars(x, Mixed(s, Vars(x), t), s);
    OnlyVars(y, Mixed(s, Vars(x), t), t);
  }

  function MarkVars(ms: Frame): set<string> {
    if ms == [] then {} else
      (match ms[0] case Neg => {} case With(l) => Vars(l) case Either(l) => Vars(l)) + MarkVars(ms[1..])
  }

  lemma {:induction false} ApplyVars(ms: Frame, v: Formula)
    ensures Vars(Apply(ms, v)) == MarkVars(ms) + Vars(v)
    ensures EachOnce(Apply(ms, v)) ==> EachOnce(v) && MarkVars(ms) !! Vars(v)
  {
    if ms != [] {
      ApplyVars(ms[1..], v);
    }
  }

  /** The same marks around another formula. */
  lemma {:induction false} ApplyOnce(ms: Frame, v: Formula, w: Formula)
    requires EachOnce(Apply(ms, v)) && EachOnce(w) && MarkVars(ms) !! Vars(w)
    ensures EachOnce(Apply(ms, w))
  {
    if ms != [] {
      ApplyVars(ms[1..], v);
      ApplyVars(ms[1..], w);
      ApplyOnce(ms[1..], v, w);
    }
  }

  lemma {:induction false} OnlyMarkVars(ms: Frame, b: bool, s: set<string>, t: set<string>)
    requires forall n :: n in MarkVars(ms) ==> (n in s <==> n in t)
    ensures Effect(ms, b, s) == Effect(ms, b, t)
  {
    if ms != [] {
      OnlyMarkVars(ms[1..], b, s, t);
      match ms[0]
      case Neg =>
      case With(l) => OnlyVars(l, s, t);
      case Either(l) => OnlyVars(l, s, t);
    }
  }

  ghost predicate Always(ms: Frame, b: bool, out: bool) {
    forall features :: Effect(ms, b, features) == out
  }

  /** Marks that yield the same under all features do so by their kinds alone. */
  lemma {:induction false} AlwaysYields(ms: Frame, v: Formula, b: bool, out: bool)
    requires EachOnce(Apply(ms, v)) && Always(ms, b, out)
    ensures Yields(ms, b, out)
  {
    if ms == [] {
      assert Effect(ms, b, {}) == out;
    } else if ms[0].Neg? {
      forall features ensures Effect(ms[1..], b, features) == !out {
        assert Effect(ms, b, features) == out;
      }
      AlwaysYields(ms[1..], v, b, !out);
    } else {
      AlwaysBehind(ms, v, b, out);
      AlwaysYields(ms[1..], v, b, ms[0].Either?);
    }
  }

  /** An operand that can be either decides alone, unless what is behind it always does. */
  lemma AlwaysBehind(ms: Frame, v: Formula, b: bool, out: bool)
    requires ms != [] && !ms[0].Neg? && EachOnce(Apply(ms, v)) && Always(ms, b, out)
    ensures out == ms[0].Either? && Always(ms[1..], b, out) && EachOnce(Apply(ms[1..], v))
  {
    var l, or, rest := ms[0].left, ms[0].Either?, ms[1..];
    ApplyVars(rest, v);
    var s := Settable(l, or);
    assert Effect(ms, b, s) == out;
    var t := Settable(l, !or);
    forall features ensures Effect(rest, b, features) == out {
      var mixed := Mixed(t, Vars(l), features);
      OnlyVars(l, mixed, t);
      OnlyMarkVars(rest, b, mixed, features);
      assert Effect(ms, b, mixed) == out;
    }
  }

  ghost predicate Same(f: Formula, g: Formula) {
    forall features :: Holds(f, features) == Holds(g, features)
  }

  /**
    If a join inside pending brackets means the same as one outside, with all names different, then both operands do,
    and the brackets yield the dominant operand.
  */
  lemma JoinedOnly(ms: Frame, v: Formula, x: Formula, n: Formula, m: Formula, d: bool)
    requires EachOnce(Apply(ms, JoinOf(d, v, x))) && EachOnce(n) && EachOnce(m)
    requires Vars(n) == MarkVars(ms) + Vars(v) && Vars(m) == Vars(x)
    requires Same(Apply(ms, JoinOf(d, v, x)), JoinOf(d, n, m))
    ensures EachOnce(Apply(ms, v)) && EachOnce(x)
    ensures Same(Apply(ms, v), n) && Same(x, m) && Yields(ms, d, d)
  {
    hide *;
    JoinParts(ms, v, x, d);
    Choosable(ms, v, x, n, m, d);
    JoinedParts(ms, v, x, n, m, d);
    AlwaysYields(ms, v, d, d);
  }

  lemma JoinParts(ms: Frame, v: Formula, x: Formula, d: bool)
    requires EachOnce(Apply(ms, JoinOf(d, v, x)))
    ensures EachOnce(Apply(ms, v)) && EachOnce(x)
  {
    ApplyVars(ms, JoinOf(d, v, x));
    ApplyVars(ms, v);
    ApplyOnce(ms, JoinOf(d, v, x), v);
  }

  lemma JoinedParts(ms: Frame, v: Formula, x: Formula, n: Formula, m: Formula, d: bool)
    requires EachOnce(Apply(ms, v)) && EachOnce(n) && EachOnce(m) && AllChosen(ms, v, x, n, m, d)
    ensures Same(Apply(ms, v), n) && Same(x, m) && Always(ms, d, d)
  {
    hide *;
    var p1 := Settable(n, !d);
    var p2 := Settable(Apply(ms, v), !d);
    var q1 := Settable(m, !d);
    var q0 := Settable(m, d);
    ApplyEffect(ms, v, p2);
    RightOperand(ms, v, x, n, m, d, p1, p2, q1, q0);
    LeftSame(ms, v, x, n, m, d, q1, q0);
    LeftAlways(ms, v, x, n, m, d, q1, q0);
    RightSame(ms, v, x, n, m, d, p1, q1, q0);
  }

  ghost predicate AllChosen(ms: Frame, v: Formula, x: Formula, n: Formula, m: Formula, d: bool) {
    forall p, q :: Chosen(ms, v, x, n, m, d, p, q)
  }

  lemma JoinIs(d: bool, a: bool)
    ensures Join(d, a, !d) == a && Join(d, a, d) == d && Join(d, !d, a) == a
  {
  }

  /** With the right operand settled there is only one way for both readings to agree. */
  lemma ChosenIs(ms: Frame, v: Formula, x: Formula, n: Formula, m: Formula, d: bool, p: set<string>, q: set<string>)
    requires AllChosen(ms, v, x, n, m, d)
    ensures Effect(ms, if Holds(x, q) == d then d else Holds(v, p), p) == if Holds(m, q) == d then d else Holds(n, p)
  {
    hide Effect, Holds;
    assert Chosen(ms, v, x, n, m, d, p, q);
    JoinIs(d, Holds(v, p));
    JoinIs(d, Holds(n, p));
  }

  lemma RightOperand(ms: Frame, v: Formula, x: Formula, n: Formula, m: Formula, d: bool,
                     p1: set<string>, p2: set<string>, q1: set<string>, q0: set<string>)
    requires AllChosen(ms, v, x, n, m, d) && Holds(n, p1) == !d && Effect(ms, Holds(v, p2), p2) == !d
    requires Holds(m, q1) == !d && Holds(m, q0) == d
    ensures Holds(x, q1) == !d && Holds(x, q0) == d
  {
    hide *;
    ChosenIs(ms, v, x, n, m, d, p1, q1);
    ChosenIs(ms, v, x, n, m, d, p1, q0);
    ChosenIs(ms, v, x, n, m, d, p2, q0);
  }

  lemma LeftOperand(ms: Frame, v: Formula, x: Formula, n: Formula, m: Formula, d: bool,
                    q1: set<string>, q0: set<string>, p: set<string>)
    requires AllChosen(ms, v, x, n, m, d)
    requires Holds(m, q1) == !d && Holds(m, q0) == d && Holds(x, q1) == !d && Holds(x, q0) == d
    ensures Holds(Apply(ms, v), p) == Holds(n, p) && Effect(ms, d, p) == d
  {
    hide *;
    ChosenIs(ms, v, x, n, m, d, p, q1);
    ChosenIs(ms, v, x, n, m, d, p, q0);
    ApplyEffect(ms, v, p);
  }

  lemma LeftSame(ms: Frame, v: Formula, x: Formula, n: Formula, m: Formula, d: bool, q1: set<string>, q0: set<string>)
    requires AllChosen(ms, v, x, n, m, d)
    requires Holds(m, q1) == !d && Holds(m, q0) == d && Holds(x, q1) == !d && Holds(x, q0) == d
    ensures Same(Apply(ms, v), n)
  {
    forall p ensures Holds(Apply(ms, v), p) == Holds(n, p) {
      hide *;
      LeftOperand(ms, v, x, n, m, d, q1, q0, p);
    }
    hide Effect, Holds, Apply, AllChosen;
  }

  lemma LeftAlways(ms: Frame, v: Formula, x: Formula, n: Formula, m: Formula, d: bool, q1: set<string>, q0: set<string>)
    requires AllChosen(ms, v, x, n, m, d)
    requires Holds(m, q1) == !d && Holds(m, q0) == d && Holds(x, q1) == !d && Holds(x, q0) == d
    ensures Always(ms, d, d)
  {
    forall p ensures Effect(ms, d, p) == d {
      hide *;
      LeftOperand(ms, v, x, n, m, d, q1, q0, p);
    }
    hide Effect, Holds, Apply, AllChosen;
  }

  lemma RightSame(ms: Frame, v: Formula, x: Formula, n: Formula, m: Formula, d: bool,
                  p1: set<string>, q1: set<string>, q0: set<string>)
    requires AllChosen(ms, v, x, n, m, d) && Holds(n, p1) == !d
    requires Holds(m, q1) == !d && Holds(m, q0) == d && Holds(x, q1) == !d && Holds(x, q0) == d
    ensures Same(x, m)
  {
    forall q ensures Holds(x, q) == Holds(m, q) {
      hide *;
      ChosenIs(ms, v, x, n, m, d, p1, q);
      ChosenIs(ms, v, x, n, m, d, p1, q1);
      ChosenIs(ms, v, x, n, m, d, p1, q0);
    }
    hide Effect, Holds, Apply, AllChosen;
  }

  lemma Choosable(ms: Frame, v: Formula, x: Formula, n: Formula, m: Formula, d: bool)
    requires EachOnce(Apply(ms, JoinOf(d, v, x))) && Vars(n) == MarkVars(ms) + Vars(v) && Vars(m) == Vars(x)
    requires Same(Apply(ms, JoinOf(d, v, x)), JoinOf(d, n, m))
    ensures AllChosen(ms, v, x, n, m, d)
  {
    forall p, q ensures Chosen(ms, v, x, n, m, d, p, q) {
      hide *;
      JoinedAt(ms, v, x, n, m, d, p, q);
    }
  }

  /** Under features `p` for the left of the join and `q` for its right both readings agree. */
  ghost predicate Chosen(ms: Frame, v: Formula, x: Formula, n: Formula, m: Formula, d: bool, p: set<string>,
                         q: set<string>) {
    Effect(ms, Join(d, Holds(v, p), Holds(x, q)), p) == Join(d, Holds(n, p), Holds(m, q))
  }

  /** Features for the left and for the right of a join can be chosen freely. */
  lemma JoinedAt(ms: Frame, v: Formula, x: Formula, n: Formula, m: Formula, d: bool, p: set<string>, q: set<string>)
    requires EachOnce(Apply(ms, JoinOf(d, v, x))) && Vars(n) == MarkVars(ms) + Vars(v) && Vars(m) == Vars(x)
    requires Same(Apply(ms, JoinOf(d, v, x)), JoinOf(d, n, m))
    ensures Chosen(ms, v, x, n, m, d, p, q)
  {
    ApplyVars(ms, JoinOf(d, v, x));
    var both := Mixed(q, Vars(x), p);
    HoldsMixed(x, q, Vars(x), p);
    HoldsMixed(m, q, Vars(x), p);
    HoldsMixed(v, q, Vars(x), p);
    HoldsMixed(n, q, Vars(x), p);
    EffectMixed(ms, Join(d, Holds(v, p), Holds(x, q)), q, Vars(x), p);
    ApplyEffect(ms, JoinOf(d, v, x), both);
    assert Holds(Apply(ms, JoinOf(d, v, x)), both) == Holds(JoinOf(d, n, m), both);
    hide Vars, EachOnce, Effect, Apply, Mixed, MarkVars;
  }

  lemma HoldsMixed(f: Formula, s: set<string>, v: set<string>, t: set<string>)
    ensures Vars(f) <= v ==> Holds(f, Mixed(s, v, t)) == Holds(f, s)
    ensures Vars(f) !! v ==> Holds(f, Mixed(s, v, t)) == Holds(f, t)
  {
    if Vars(f) <= v {
      OnlyVars(f, Mixed(s, v, t), s);
    }
    if Vars(f) !! v {
      OnlyVars(f, Mixed(s, v, t), t);
    }
  }

  lemma EffectMixed(ms: Frame, b: bool, s: set<string>, v: set<string>, t: set<string>)
    ensures MarkVars(ms) !! v ==> Effect(ms, b, Mixed(s, v, t)) == Effect(ms, b, t)
  {
    if MarkVars(ms) !! v {
      OnlyMarkVars(ms, b, Mixed(s, v, t), t);
    }
  }

  // ---------- rereading uses each name as often ----------

  lemma {:induction false} ExprVars(e: Expr)
    ensures Vars(Reread(e)) == Vars(ExprMeans(e))
    ensures EachOnce(ExprMeans(e)) ==> EachOnce(Reread(e))
    decreases e
  {
    TermVars(e.term);
    if e.Or? {
      var a, x := ReadTerm(e.term), Reread(e.others);
      ExprVars(e.others);
      ClosedOr(e.term, e.others);
      JoinVars(Flat(a.frames), a.value, x, true);
    }
  }

  lemma JoinVars(ms: Frame, v: Formula, x: Formula, d: bool)
    ensures Vars(Apply(ms, JoinOf(d, v, x))) == Vars(Apply(ms, v)) + Vars(x)
    ensures EachOnce(Apply(ms, v)) && EachOnce(x) && Vars(Apply(ms, v)) !! Vars(x) ==>
              EachOnce(Apply(ms, JoinOf(d, v, x)))
  {
    ApplyVars(ms, v);
    ApplyVars(ms, JoinOf(d, v, x));
    if EachOnce(Apply(ms, v)) && EachOnce(x) && Vars(Apply(ms, v)) !! Vars(x) {
      ApplyOnce(ms, v, JoinOf(d, v, x));
    }
  }

  lemma {:induction false} TermVars(t: Term)
    ensures Vars(Closed(ReadTerm(t))) == Vars(TermMeans(t))
    ensures EachOnce(TermMeans(t)) ==> EachOnce(Closed(ReadTerm(t)))
    decreases t
  {
    FactorVars(t.factor);
    if t.And? {
      MoreVars(ReadFactor([], t.factor), FactorMeans(t.factor), t.others);
    }
  }

  lemma {:induction false} MoreVars(a: Read, so: Formula, t: Term)
    requires Vars(Closed(a)) == Vars(so) && (EachOnce(so) ==> EachOnce(Closed(a)))
    ensures Vars(Closed(ReadMore(a, t))) == Vars(MoreMeans(so, t))
    ensures EachOnce(MoreMeans(so, t)) ==> EachOnce(Closed(ReadMore(a, t))) && EachOnce(so)
    decreases t
  {
    var f := t.factor;
    FactorVars(f);
    ClosedAnd(a, f);
    JoinVars(Flat(a.frames), a.value, Bare(f), false);
    if t.And? {
      MoreVars(ReadAnd(a, f), Conj(so, FactorMeans(f)), t.others);
    }
  }

  lemma {:induction false} FactorVars(f: Factor)
    ensures Vars(Bare(f)) == Vars(FactorMeans(f))
    ensures EachOnce(FactorMeans(f)) ==> EachOnce(Bare(f))
    decreases f
  {
    match f
    case Feature(_) =>
    case Not(f1) =>
      FactorVars(f1);
      BareNot(f1);
    case Group(e) =>
      ExprVars(e);
      ClosedGroup([], e);
  }

  // ---------- so the condition is exact ----------

  lemma {:induction false} ExprOnlyRight(e: Expr)
    requires EachOnce(ExprMeans(e)) && Same(Reread(e), ExprMeans(e))
    ensures ExprRight(e)
    decreases e
  {
    if e.Or? {
      var a, t, e1 := ReadTerm(e.term), e.term, e.others;
      ExprVars(e);
      ExprVars(e1);
      TermVars(t);
      ClosedOr(t, e1);
      ApplyVars(Flat(a.frames), a.value);
      JoinedOnly(Flat(a.frames), a.value, Reread(e1), TermMeans(t), ExprMeans(e1), true);
      TermOnlyRight(t);
      ExprOnlyRight(e1);
    } else {
      TermOnlyRight(e.term);
    }
  }

  lemma {:induction false} TermOnlyRight(t: Term)
    requires EachOnce(TermMeans(t)) && Same(Closed(ReadTerm(t)), TermMeans(t))
    ensures TermRight(t)
    decreases t
  {
    FactorVars(t.factor);
    if t.And? {
      MoreVars(ReadFactor([], t.factor), FactorMeans(t.factor), t.others);
      MoreOnlyRight(ReadFactor([], t.factor), FactorMeans(t.factor), t.others);
    }
    FactorOnlyRight(t.factor);
  }

  lemma {:induction false} MoreOnlyRight(a: Read, so: Formula, t: Term)
    requires Vars(Closed(a)) == Vars(so) && (EachOnce(so) ==> EachOnce(Closed(a)))
    requires EachOnce(MoreMeans(so, t)) && Same(Closed(ReadMore(a, t)), MoreMeans(so, t))
    ensures MoreRight(a, t) && Same(Closed(a), so)
    decreases t
  {
    var f := t.factor;
    FactorVars(f);
    ClosedAnd(a, f);
    JoinVars(Flat(a.frames), a.value, Bare(f), false);
    if t.And? {
      MoreVars(ReadAnd(a, f), Conj(so, FactorMeans(f)), t.others);
      MoreOnlyRight(ReadAnd(a, f), Conj(so, FactorMeans(f)), t.others);
    }
    ApplyVars(Flat(a.frames), a.value);
    JoinedOnly(Flat(a.frames), a.value, Bare(f), so, FactorMeans(f), false);
    FactorOnlyRight(f);
  }

  lemma {:induction false} FactorOnlyRight(f: Factor)
    requires EachOnce(FactorMeans(f)) && Same(Bare(f), FactorMeans(f))
    ensures FactorRight(f)
    decreases f
  {
    match f
    case Feature(_) =>
    case Not(f1) =>
      BareNot(f1);
      forall features ensures Holds(Bare(f1), features) == Holds(FactorMeans(f1), features) {
        assert Holds(Bare(f), features) == Holds(FactorMeans(f), features);
      }
      FactorOnlyRight(f1);
    case Group(e) =>
      ClosedGroup([], e);
      ExprOnlyRight(e);
  }

  /** The verdict on a text under given features. */
  ghost function VerdictOn(s: string, features: set<string>): Result {
    Verdict(Run(Tokens(s), false, Stack([], false), features).stack)
  }

  /** An expression that fulfils the condition is evaluated right, with `not` before `and` before `or`. */
  lemma Precedence(e: Expr, s: string, features: set<string>)
    requires ExprNames(e) && Tokens(s) == ExprTokens(e) && ExprRight(e)
    ensures VerdictOn(s, features) == Value(ExprHolds(e, features))
  {
    EvaluatesReread(e, s, features);
    ExprReadsRight(e, features);
    ExprMeansRight(e, features);
  }

  /** An expression whose names are all different is evaluated right under all features if and only if it does. */
  lemma PrecedenceExactly(e: Expr, s: string)
    requires ExprNames(e) && Tokens(s) == ExprTokens(e) && EachOnce(ExprMeans(e))
    ensures (forall features :: VerdictOn(s, features) == Value(ExprHolds(e, features))) <==> ExprRight(e)
  {
    if ExprRight(e) {
      forall features ensures VerdictOn(s, features) == Value(ExprHolds(e, features)) {
        Precedence(e, s, features);
      }
    }
    if forall features :: VerdictOn(s, features) == Value(ExprHolds(e, features)) {
      forall features ensures Holds(Reread(e), features) == Holds(ExprMeans(e), features) {
        assert VerdictOn(s, features) == Value(ExprHolds(e, features));
        EvaluatesReread(e, s, features);
        ExprMeansRight(e, features);
      }
      ExprOnlyRight(e);
    }
  }

  // ---------- an expression that comes out wrong ----------

  /** `not (t1 or t2) and f`. */
  function Negated(t1: Term, t2: Term, f: Factor): Expr {
    Just(And(Not(Group(Or(t1, Just(t2)))), One(f)))
  }

  /** Nothing that should be closed is still open behind the term. */
  predicate Settled(t: Term) {
    TermRight(t) && ReadTerm(t).frames == []
  }

  lemma NegatedRereads(t1: Term, t2: Term, f: Factor)
    requires ReadTerm(t1).frames == [] && ReadTerm(t2).frames == []
    ensures Reread(Negated(t1, t2, f)) == Minus(Conj(Disj(ReadTerm(t1).value, ReadTerm(t2).value), Bare(f)))
  {
    var v1, v2 := ReadTerm(t1).value, ReadTerm(t2).value;
    var e, g := Or(t1, Just(t2)), Group(Or(t1, Just(t2)));
    assert ReadExpr(e) == Read([[Either(v1)]], v2);
    CloseLastIs([Neg], e);
    assert [] + [Neg] == [Neg] && [Either(v1)][1..] == [] && [Neg][1..] == [];
    assert Apply([Either(v1)], v2) == Disj(v1, v2);
    var a := Read([[Neg]], Disj(v1, v2));
    assert [[Either(v1)]][..0] == [] && [[Neg]] + [] == [[Neg]];
    assert ReadFactor([Neg], g) == a == ReadFactor([], Not(g));
    ClosedAnd(a, f);
    FlatOne([Neg]);
    assert ReadTerm(And(Not(g), One(f))) == ReadAnd(a, f);
    assert Reread(Negated(t1, t2, f)) == Apply([Neg], Conj(Disj(v1, v2), Bare(f)));
    assert Apply([Neg], Conj(Disj(v1, v2), Bare(f))) == Wrap(Neg, Apply([], Conj(Disj(v1, v2), Bare(f))));
  }

  /** It is evaluated right if and only if `f` holds. */
  lemma NegatedOr(t1: Term, t2: Term, f: Factor, s: string, features: set<string>)
    requires ExprNames(Negated(t1, t2, f)) && Tokens(s) == ExprTokens(Negated(t1, t2, f))
    requires Settled(t1) && Settled(t2) && FactorRight(f)
    ensures VerdictOn(s, features) == Value(ExprHolds(Negated(t1, t2, f), features)) <==> FactorHolds(f, features)
  {
    var e := Negated(t1, t2, f);
    NegatedRereads(t1, t2, f);
    EvaluatesReread(e, s, features);
    TermReadsRight(t1, features);
    TermReadsRight(t2, features);
    FactorReadsRight(f, features);
    TermMeansRight(t1, features);
    TermMeansRight(t2, features);
    FactorMeansRight(f, features);
    NegatedMeans(t1, t2, f, features);
    assert Holds(ReadTerm(t1).value, features) == TermHolds(t1, features);
    assert Holds(ReadTerm(t2).value, features) == TermHolds(t2, features);
    var r := Minus(Conj(Disj(ReadTerm(t1).value, ReadTerm(t2).value), Bare(f)));
    assert Holds(Disj(ReadTerm(t1).value, ReadTerm(t2).value), features)
           == (TermHolds(t1, features) || TermHolds(t2, features));
    assert Holds(r, features) == !((TermHolds(t1, features) || TermHolds(t2, features)) && FactorHolds(f, features));
    hide Holds, TermHolds, FactorHolds, ExprHolds, Tokens, Run, Verdict;
  }

  lemma NegatedMeans(t1: Term, t2: Term, f: Factor, features: set<string>)
    ensures ExprHolds(Negated(t1, t2, f), features)
       <==> !(TermHolds(t1, features) || TermHolds(t2, features)) && FactorHolds(f, features)
  {
    var g := Group(Or(t1, Just(t2)));
    assert FactorHolds(g, features) == ExprHolds(Or(t1, Just(t2)), features);
    assert FactorHolds(Not(g), features) == !FactorHolds(g, features);
    assert TermHolds(One(f), features) == FactorHolds(f, features);
    assert ExprHolds(Just(t2), features) == TermHolds(t2, features);
    assert TermHolds(And(Not(g), One(f)), features) == (FactorHolds(Not(g), features) && TermHolds(One(f), features));
  }

  const A := One(Feature("a"))
  const B := One(Feature("b"))
  const C := Feature("c")
  const WORDS := ["not", "(", "a", "or", "b", ")", "and", "c"]
  const GAPS: seq<nat> := [0, 1, 0, 1, 1, 0, 1, 1]

  /** `not (a or b) and c` without any feature. */
  lemma NegatedOrExample()
    ensures VerdictOn(Text(WORDS, GAPS), {}) == Value(true) && !ExprHolds(Negated(A, B, C), {})
  {
    WordsOfExample();
    WordsAreSeparate();
    TokensOfText(WORDS, GAPS);
    ExampleIsSettled();
    EvaluatesReread(Negated(A, B, C), Text(WORDS, GAPS), {});
    NegatedRereads(A, B, C);
    NegatedMeans(A, B, C, {});
  }

  lemma ExampleIsSettled()
    ensures ReadTerm(A) == Read([], Var("a")) && ReadTerm(B) == Read([], Var("b")) && Bare(C) == Var("c")
    ensures ExprNames(Negated(A, B, C))
  {
    var g := Group(Or(A, Just(B)));
    assert ExprNames(Or(A, Just(B))) && FactorNames(Not(g));
  }

  lemma WordsAreSeparate()
    ensures Separate(WORDS, GAPS)
  {
    assert Word("not") && Word("or") && Word("and") && Word("a") && Word("b") && Word("c");
    assert "("[0] in " ()" && ")"[0] in " ()";
    forall i | 0 <= i < |WORDS| ensures Proper(WORDS[i]) {
    }
  }

  lemma WordsOfExample()
    ensures ExprTokens(Negated(A, B, C)) == WORDS
  {
    var g := Group(Or(A, Just(B)));
    assert ExprTokens(Or(A, Just(B))) == ["a", "or", "b"];
    assert FactorTokens(g) == ["(", "a", "or", "b", ")"];
    assert FactorTokens(Not(g)) == ["not", "(", "a", "or", "b", ")"];
    assert TermTokens(One(C)) == ["c"];
  }

  /** `a and (b or c) and d` fulfils the condition: what is open behind the brackets only joins by `and`. */
  lemma AndOrAndIsRight(a: string, b: string, c: string, d: string)
    ensures ExprRight(Just(And(Feature(a), And(Group(Or(One(Feature(b)), Just(One(Feature(c))))), One(Feature(d))))))
  {
    var g := Group(Or(One(Feature(b)), Just(One(Feature(c)))));
    var va, vb, vc := Var(a), Var(b), Var(c);
    assert ReadFactor([], Feature(a)) == Read([], va);
    assert ReadTerm(One(Feature(b))) == Read([], vb) && ReadTerm(One(Feature(c))) == Read([], vc);
    assert ReadExpr(Just(One(Feature(c)))) == Read([], vc);
    assert ReadExpr(g.expr) == Read([] + [[Either(vb)]] + [], vc) == Read([[Either(vb)]], vc);
    assert TermRight(One(Feature(b))) && ExprRight(Just(One(Feature(c)))) && Flat([]) == [];
    assert ExprRight(g.expr);
    CloseLastIs([With(va)], g.expr);
    assert [[Either(vb)]][..0] == [] && [[With(va)]] + [] == [[With(va)]];
    assert ReadAnd(Read([], va), g).frames == [[With(va)]];
    FlatOne([With(va)]);
    assert [With(va)][1..] == [];
    assert Yields([With(va)], false, false);
    assert FactorRight(g);
    assert MoreRight(ReadAnd(Read([], va), g), One(Feature(d)));
  }
}
