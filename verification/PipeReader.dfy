/** The walk along the schema as a reader of the pipe, which decides from its replies so far what to ask next. */
module PipeReader {
  import opened Wrappers
  import opened DataSchema
  import opened SchemaNames
  import opened DataTree
  import opened Pipe
  import opened PipeProtocol

  datatype Progress<T> = Wants(ask: Ask) | Done(value: T, left: seq<Reply>) | Refused(err: string)

  ghost function Walk(defs: seq<Def>, r: seq<Reply>): (p: Progress<Data>)
    ensures p.Done? ==> |p.left| <= |r| && p.value.Obj?
    decreases |r|, defs, 1
  {
    if defs == [] then Done(NOTHING, r)
    else if SeesChoice(defs) then Refused(NO_CHOOSE)
    else
      match WalkOne(defs[0], r)
      case Wants(a) => Wants(a)
      case Refused(e) => Refused(e)
      case Done(one, left) =>
        match Walk(defs[1..], left)
        case Wants(a) => Wants(a)
        case Refused(e) => Refused(e)
        case Done(others, left2) => Done(Join(one, others), left2)
  }

  ghost function WalkOne(d: Def, r: seq<Reply>): (p: Progress<Data>)
    ensures p.Done? ==> |p.left| <= |r| && p.value.Obj?
    decreases |r|, d, 0
  {
    match d
    case Leaf(id, _) =>
      if r == [] then Wants(Field(id))
      else if r[0].Hit? && r[0].message.PipeLeaf? then Done(Obj(map[id := r[0].message.value], map[]), r[1..])
      else NoData(r)
    case Container(id, defs) =>
      if r == [] then Wants(Child(id))
      else if r[0].Hit? then
        match Walk(defs, r[1..])
        case Wants(a) => Wants(a)
        case Refused(e) => Refused(e)
        case Done(sub, left) => Done(Obj(map[], map[id := sub]), left)
      else NoData(r)
    case List(id, defs) =>
      if r == [] then Wants(Child(id))
      else if r[0].Hit? then
        match WalkRows(defs, r[1..])
        case Wants(a) => Wants(a)
        case Refused(e) => Refused(e)
        case Done(rows, left) => Done(Obj(map[], map[id := Rows(rows)]), left)
      else NoData(r)
    case Choice(_, _) => Refused(NO_CHOOSE)
  }

  ghost function NoData(r: seq<Reply>): Progress<Data>
    requires r != []
  {
    if r[0].Miss? && r[0].err.Some? then Refused(r[0].err.value) else Done(NOTHING, r[1..])
  }

  ghost function WalkRows(defs: seq<Def>, r: seq<Reply>): (p: Progress<seq<Row>>)
    ensures p.Done? ==> |p.left| <= |r|
    decreases |r|, defs, 2
  {
    if r == [] then Wants(Next)
    else if r[0].Hit? && r[0].message.PipeListItem? then
      match Walk(defs, r[1..])
      case Wants(a) => Wants(a)
      case Refused(e) => Refused(e)
      case Done(row, left) =>
        match WalkRows(defs, left)
        case Wants(a) => Wants(a)
        case Refused(e) => Refused(e)
        case Done(rows, left2) => Done([Row(r[0].message.key, row)] + rows, left2)
    else if r[0].Miss? && r[0].err.Some? then Refused(r[0].err.value)
    else Done([], r[1..])
  }

  /** The walk as a reader. */
  ghost function Reading(defs: seq<Def>): Reader {
    r => match Walk(defs, r) case Wants(a) => Some(a) case _ => None
  }

  // ---------- the replies of a whole walk ----------

  ghost function Log(defs: seq<Def>, s: seq<Message>): seq<Reply>
    requires Ended(s) && Pulled(defs, s).Got?
    decreases |s|, defs, 1
  {
    if defs == [] then [] else LogOne(defs[0], s) + Log(defs[1..], PulledOne(defs[0], s).rest)
  }

  ghost function LogOne(d: Def, s: seq<Message>): seq<Reply>
    requires Ended(s) && PulledOne(d, s).Got?
    decreases |s|, d, 0
  {
    match d
    case Leaf(id, _) => [ReplyTo(Field(id), s[0])]
    case Container(id, defs) => [ReplyTo(Child(id), s[0])] + if Matches(Child(id), s[0]) then Log(defs, s[1..]) else []
    case List(id, defs) => [ReplyTo(Child(id), s[0])] + if Matches(Child(id), s[0]) then LogRows(defs, s[1..]) else []
    case Choice(_, _) => []
  }

  ghost function LogRows(defs: seq<Def>, s: seq<Message>): seq<Reply>
    requires Ended(s) && PulledRows(defs, s).Got?
    decreases |s|, defs, 2
  {
    [ReplyTo(Next, s[0])]
    + if Matches(Next, s[0]) then Log(defs, s[1..]) + LogRows(defs, Pulled(defs, s[1..]).rest) else []
  }

  lemma WalkBoth(defs: seq<Def>, r: seq<Reply>, one: Data, left: seq<Reply>)
    requires defs != [] && !SeesChoice(defs) && one.Obj? && WalkOne(defs[0], r) == Done(one, left)
    ensures match Walk(defs[1..], left)
            case Wants(a) => Walk(defs, r) == Wants(a)
            case Refused(e) => Walk(defs, r) == Refused(e)
            case Done(others, left2) => Walk(defs, r) == Done(Join(one, others), left2)
  {
  }

  lemma LogBoth(defs: seq<Def>, s: seq<Message>, more: seq<Reply>)
    requires defs != [] && Ended(s) && Pulled(defs, s).Got?
    ensures !SeesChoice(defs) && PulledOne(defs[0], s).Got?
    ensures var s1 := PulledOne(defs[0], s).rest;
            && Pulled(defs[1..], s1).Got?
            && Pulled(defs, s).value == Join(PulledOne(defs[0], s).value, Pulled(defs[1..], s1).value)
            && Pulled(defs, s).rest == Pulled(defs[1..], s1).rest
            && Log(defs, s) == LogOne(defs[0], s) + Log(defs[1..], s1)
            && Log(defs, s) + more == LogOne(defs[0], s) + (Log(defs[1..], s1) + more)
  {
    assert PulledOne(defs[0], s).Got?;
    var s1 := PulledOne(defs[0], s).rest;
    hide PulledOne, LogOne, Ended;
    assert Log(defs, s) == LogOne(defs[0], s) + Log(defs[1..], s1);
    Associate(LogOne(defs[0], s), Log(defs[1..], s1), more);
  }

  lemma Associate(a: seq<Reply>, b: seq<Reply>, c: seq<Reply>)
    ensures a + b + c == a + (b + c)
  {
  }

  lemma LogFirst(a: Reply, b: seq<Reply>, more: seq<Reply>)
    ensures ([a] + b + more)[0] == a && ([a] + b + more)[1..] == b + more
    ensures ([a] + more)[0] == a && ([a] + more)[1..] == more
  {
  }

  /** With the replies of a whole walk the walk is over, and has read what they carry. */
  lemma {:induction false} WalkLog(defs: seq<Def>, s: seq<Message>, more: seq<Reply>)
    requires Ended(s) && Pulled(defs, s).Got?
    ensures Walk(defs, Log(defs, s) + more) == Done(Pulled(defs, s).value, more)
    decreases |s|, defs, 1
  {
    if defs == [] {
      assert Log(defs, s) + more == more;
    } else {
      LogBoth(defs, s, more);
      var s1 := PulledOne(defs[0], s).rest;
      hide *;
      WalkLogOne(defs[0], s, Log(defs[1..], s1) + more);
      WalkLog(defs[1..], s1, more);
      WalkBoth(defs, Log(defs, s) + more, PulledOne(defs[0], s).value, Log(defs[1..], s1) + more);
    }
  }

  lemma {:induction false} WalkLogOne(d: Def, s: seq<Message>, more: seq<Reply>)
    requires Ended(s) && PulledOne(d, s).Got?
    ensures WalkOne(d, LogOne(d, s) + more) == Done(PulledOne(d, s).value, more)
    decreases |s|, d, 0
  {
    match d
    case Leaf(id, _) => LogFirst(ReplyTo(Field(id), s[0]), [], more);
    case Container(id, defs) =>
      if Matches(Child(id), s[0]) {
        WalkLog(defs, s[1..], more);
        LogFirst(ReplyTo(Child(id), s[0]), Log(defs, s[1..]), more);
        hide Walk, Log, Pulled, Ended;
      } else {
        LogFirst(ReplyTo(Child(id), s[0]), [], more);
      }
    case List(id, defs) =>
      if Matches(Child(id), s[0]) {
        WalkLogRows(defs, s[1..], more);
        LogFirst(ReplyTo(Child(id), s[0]), LogRows(defs, s[1..]), more);
        hide WalkRows, LogRows, PulledRows, Ended;
      } else {
        LogFirst(ReplyTo(Child(id), s[0]), [], more);
      }
  }

  lemma RowsLogBoth(defs: seq<Def>, s: seq<Message>, more: seq<Reply>)
    requires Ended(s) && PulledRows(defs, s).Got? && Matches(Next, s[0])
    ensures Ended(s[1..]) && Pulled(defs, s[1..]).Got?
    ensures var s1 := Pulled(defs, s[1..]).rest;
            && Ended(s1) && |s1| < |s|
            && PulledRows(defs, s1).Got?
            && PulledRows(defs, s).value == [Row(s[0].key, Pulled(defs, s[1..]).value)] + PulledRows(defs, s1).value
            && PulledRows(defs, s).rest == PulledRows(defs, s1).rest
            && LogRows(defs, s) == [ReplyTo(Next, s[0])] + (Log(defs, s[1..]) + LogRows(defs, s1))
            && (LogRows(defs, s) + more)[0] == Hit(s[0])
            && (LogRows(defs, s) + more)[1..] == Log(defs, s[1..]) + (LogRows(defs, s1) + more)
  {
    assert Ended(s[1..]);
    hide Pulled, Log, Ended;
    var s1 := Pulled(defs, s[1..]).rest;
    LogFirst(ReplyTo(Next, s[0]), Log(defs, s[1..]) + LogRows(defs, s1), more);
    Associate(Log(defs, s[1..]), LogRows(defs, s1), more);
  }

  lemma WalkRowsBoth(defs: seq<Def>, r: seq<Reply>, row: Data, left: seq<Reply>)
    requires r != [] && r[0].Hit? && r[0].message.PipeListItem? && Walk(defs, r[1..]) == Done(row, left)
    ensures |left| < |r|
    ensures match WalkRows(defs, left)
            case Wants(a) => WalkRows(defs, r) == Wants(a)
            case Refused(e) => WalkRows(defs, r) == Refused(e)
            case Done(rows, left2) => WalkRows(defs, r) == Done([Row(r[0].message.key, row)] + rows, left2)
  {
    hide Walk;
  }

  lemma {:induction false} WalkLogRows(defs: seq<Def>, s: seq<Message>, more: seq<Reply>)
    requires Ended(s) && PulledRows(defs, s).Got?
    ensures WalkRows(defs, LogRows(defs, s) + more) == Done(PulledRows(defs, s).value, more)
    decreases |s|, defs, 2
  {
    if Matches(Next, s[0]) {
      RowsLogBoth(defs, s, more);
      var s1 := Pulled(defs, s[1..]).rest;
      hide Walk, WalkRows, Log, LogRows, Pulled, PulledRows, Ended;
      WalkLog(defs, s[1..], LogRows(defs, s1) + more);
      WalkLogRows(defs, s1, more);
      WalkRowsBoth(defs, LogRows(defs, s) + more, Pulled(defs, s[1..]).value, LogRows(defs, s1) + more);
    } else {
      LogFirst(ReplyTo(Next, s[0]), [], more);
    }
  }

  /** With fewer replies the walk wants one more, and the message that answers is the first one not yet matched. */
  ghost predicate AsksNext<T>(p: Progress<T>, log: seq<Reply>, s: seq<Message>, n: nat)
    requires n < |log|
  {
    p.Wants? && |Hits(log[..n])| < |s| && log[n] == ReplyTo(p.ask, s[|Hits(log[..n])|])
  }

  lemma {:induction false} HitsAppend(a: seq<Reply>, b: seq<Reply>)
    ensures Hits(a + b) == Hits(a) + Hits(b)
  {
    if b == [] {
      assert a + b == a;
    } else {
      assert (a + b)[..|a + b| - 1] == a + b[..|b| - 1];
      HitsAppend(a, b[..|b| - 1]);
    }
  }

  /** What lies ahead after some replies. */
  ghost predicate Ahead(s: seq<Message>, log: seq<Reply>, rest: seq<Message>) {
    |Hits(log)| <= |s| && s[|Hits(log)|..] == rest
  }

  lemma AheadThen(s: seq<Message>, a: seq<Reply>, s1: seq<Message>, b: seq<Reply>, s2: seq<Message>)
    requires Ahead(s, a, s1) && Ahead(s1, b, s2)
    ensures Ahead(s, a + b, s2)
  {
    HitsAppend(a, b);
  }

  // ---------- every ask of the walk is answered by the first message not yet matched ----------

  lemma {:induction false} LogAhead(defs: seq<Def>, s: seq<Message>)
    requires Ended(s) && Pulled(defs, s).Got?
    ensures Ahead(s, Log(defs, s), Pulled(defs, s).rest)
    decreases |s|, defs, 1
  {
    if defs != [] {
      LogBoth(defs, s, []);
      var s1 := PulledOne(defs[0], s).rest;
      hide *;
      LogAheadOne(defs[0], s);
      LogAhead(defs[1..], s1);
      AheadThen(s, LogOne(defs[0], s), s1, Log(defs[1..], s1), Pulled(defs[1..], s1).rest);
    }
  }

  lemma AheadFirst(s: seq<Message>, a: Ask)
    requires s != []
    ensures Ahead(s, [ReplyTo(a, s[0])], if Matches(a, s[0]) then s[1..] else s)
  {
    assert [ReplyTo(a, s[0])][..0] == [];
  }

  lemma LogOneParts(d: Def, s: seq<Message>)
    requires Ended(s) && PulledOne(d, s).Got? && !d.Choice?
    ensures var a := if d.Leaf? then Field(d.ident) else Child(d.ident);
            if d.Leaf? || !Matches(a, s[0]) then
              LogOne(d, s) == [ReplyTo(a, s[0])] && PulledOne(d, s).rest == if Matches(a, s[0]) then s[1..] else s
            else
              Ended(s[1..])
              && (d.Container? ==> Pulled(d.defs, s[1..]).Got? && PulledOne(d, s).rest == Pulled(d.defs, s[1..]).rest
                                   && LogOne(d, s) == [ReplyTo(a, s[0])] + Log(d.defs, s[1..]))
              && (d.List? ==> PulledRows(d.defs, s[1..]).Got? && PulledOne(d, s).rest == PulledRows(d.defs, s[1..]).rest
                              && LogOne(d, s) == [ReplyTo(a, s[0])] + LogRows(d.defs, s[1..]))
  {
    hide Log, LogRows, Pulled, PulledRows;
  }

  lemma {:induction false} LogAheadOne(d: Def, s: seq<Message>)
    requires Ended(s) && PulledOne(d, s).Got?
    ensures Ahead(s, LogOne(d, s), PulledOne(d, s).rest)
    decreases |s|, d, 0
  {
    if !d.Choice? {
      LogOneParts(d, s);
      hide *;
      if d.Leaf? {
        AheadFirst(s, Field(d.ident));
      } else if !Matches(Child(d.ident), s[0]) {
        AheadFirst(s, Child(d.ident));
      } else if d.Container? {
        LogAhead(d.defs, s[1..]);
        InsideAhead(s, d.ident, Log(d.defs, s[1..]), Pulled(d.defs, s[1..]).rest);
      } else {
        LogAheadRows(d.defs, s[1..]);
        InsideAhead(s, d.ident, LogRows(d.defs, s[1..]), PulledRows(d.defs, s[1..]).rest);
      }
    }
  }

  lemma InsideAhead(s: seq<Message>, ident: string, log: seq<Reply>, rest: seq<Message>)
    requires s != [] && Matches(Child(ident), s[0]) && Ahead(s[1..], log, rest)
    ensures Ahead(s, [ReplyTo(Child(ident), s[0])] + log, rest)
  {
    AheadFirst(s, Child(ident));
    AheadThen(s, [ReplyTo(Child(ident), s[0])], s[1..], log, rest);
  }

  lemma {:induction false} LogAheadRows(defs: seq<Def>, s: seq<Message>)
    requires Ended(s) && PulledRows(defs, s).Got?
    ensures Ahead(s, LogRows(defs, s), PulledRows(defs, s).rest)
    decreases |s|, defs, 2
  {
    AheadFirst(s, Next);
    if Matches(Next, s[0]) {
      RowsLogBoth(defs, s, []);
      var s1 := Pulled(defs, s[1..]).rest;
      LogAhead(defs, s[1..]);
      LogAheadRows(defs, s1);
      AheadThen(s[1..], Log(defs, s[1..]), s1, LogRows(defs, s1), PulledRows(defs, s1).rest);
      AheadThen(s, [ReplyTo(Next, s[0])], s[1..], Log(defs, s[1..]) + LogRows(defs, s1), PulledRows(defs, s1).rest);
    }
  }

  ghost function Then(a: seq<Reply>, b: seq<Reply>): seq<Reply> { a + b }

  ghost function First(a: seq<Reply>, n: nat): seq<Reply> { if n <= |a| then a[..n] else a }

  ghost function Tail(s: seq<Message>): seq<Message> { if s == [] then [] else s[1..] }

  /** What is asked with the first `n` replies of a log whose first part is `a`. */
  lemma FirstThen(a: seq<Reply>, b: seq<Reply>, n: nat)
    ensures |Then(a, b)| == |a| + |b|
    ensures First(Then(a, b), n) == if n <= |a| then First(a, n) else Then(a, First(b, n - |a|))
    ensures n == |a| ==> First(Then(a, b), n) == Then(a, First(b, 0))
  {
  }

  ghost predicate Asking<T>(p: Progress<T>, log: seq<Reply>, s: seq<Message>, n: nat) {
    n < |log| && AsksNext(p, log, s, n)
  }

  lemma AskingWants<T>(p: Progress<T>, log: seq<Reply>, s: seq<Message>, n: nat)
    requires Asking(p, log, s, n)
    ensures p.Wants?
  {
  }

  lemma AskingFirst<T, U>(p: Progress<T>, q: Progress<U>, s: seq<Message>, a: seq<Reply>, b: seq<Reply>, n: nat)
    requires Asking(q, a, s, n) && p.Wants? && p.ask == q.ask
    ensures Asking(p, Then(a, b), s, n)
  {
    assert (a + b)[..n] == a[..n];
  }

  lemma AskingThen<T, U>(p: Progress<T>, q: Progress<U>, s: seq<Message>, a: seq<Reply>, s1: seq<Message>,
                         b: seq<Reply>, n: nat)
    requires Ahead(s, a, s1) && Asking(q, b, s1, n) && p.Wants? && p.ask == q.ask
    ensures Asking(p, Then(a, b), s, |a| + n)
  {
    HitsAppend(a, b[..n]);
    assert (a + b)[..|a| + n] == a + b[..n];
  }

  lemma {:induction false} WalkAsks(defs: seq<Def>, s: seq<Message>, n: nat)
    requires Ended(s) && Pulled(defs, s).Got? && n < |Log(defs, s)|
    ensures Asking(Walk(defs, First(Log(defs, s), n)), Log(defs, s), s, n)
    decreases |s|, defs, 1
  {
    LogThen(defs, s, n);
    hide *;
    if n < |LogOne(defs[0], s)| {
      WalkAsksOne(defs[0], s, n);
      WalkBegins(defs, s, n);
    } else {
      var k := n - |LogOne(defs[0], s)|;
      WalkAsks(defs[1..], PulledOne(defs[0], s).rest, k);
      WalkGoesOn(defs, s, k, n);
    }
  }

  lemma WalkBegins(defs: seq<Def>, s: seq<Message>, n: nat)
    requires Ended(s) && Pulled(defs, s).Got? && n < |Log(defs, s)|
    requires defs != [] && PulledOne(defs[0], s).Got? && n < |LogOne(defs[0], s)|
    requires Asking(WalkOne(defs[0], First(LogOne(defs[0], s), n)), LogOne(defs[0], s), s, n)
    ensures Asking(Walk(defs, First(Log(defs, s), n)), Log(defs, s), s, n)
  {
    LogThen(defs, s, n);
    hide *;
    var one, others := LogOne(defs[0], s), Log(defs[1..], PulledOne(defs[0], s).rest);
    var r := First(one, n);
    FirstThen(one, others, n);
    AskingWants(WalkOne(defs[0], r), one, s, n);
    WalkWants(defs, r);
    AskingFirst(Walk(defs, r), WalkOne(defs[0], r), s, one, others, n);
  }

  lemma LogThen(defs: seq<Def>, s: seq<Message>, n: nat)
    requires Ended(s) && Pulled(defs, s).Got? && n < |Log(defs, s)|
    ensures defs != [] && PulledOne(defs[0], s).Got?
    ensures var s1 := PulledOne(defs[0], s).rest;
            && Ended(s1) && |s1| <= |s| && Pulled(defs[1..], s1).Got?
            && Log(defs, s) == Then(LogOne(defs[0], s), Log(defs[1..], s1))
            && |Log(defs, s)| == |LogOne(defs[0], s)| + |Log(defs[1..], s1)|
  {
    LogBoth(defs, s, []);
  }

  lemma WalkGoesOn(defs: seq<Def>, s: seq<Message>, k: nat, n: nat)
    requires Ended(s) && Pulled(defs, s).Got? && n < |Log(defs, s)|
    requires defs != [] && PulledOne(defs[0], s).Got? && n == |LogOne(defs[0], s)| + k
    requires var s1 := PulledOne(defs[0], s).rest;
             Pulled(defs[1..], s1).Got?
               && Asking(Walk(defs[1..], First(Log(defs[1..], s1), k)), Log(defs[1..], s1), s1, k)
    ensures Asking(Walk(defs, First(Log(defs, s), n)), Log(defs, s), s, n)
  {
    LogThen(defs, s, n);
    hide *;
    var one, others := LogOne(defs[0], s), Log(defs[1..], PulledOne(defs[0], s).rest);
    var some := First(others, k);
    AskingPastOne(defs, s, others, k, n);
    AskingWants(Walk(defs[1..], some), Then(one, others), s, n);
    WalkPastOne(defs, s, some);
    FirstPast(one, others, k, n);
    SameAsk(Walk(defs[1..], some), Walk(defs, Then(one, some)), Then(one, others), s, n);
  }

  lemma FirstPast(a: seq<Reply>, b: seq<Reply>, k: nat, n: nat)
    requires n == |a| + k
    ensures First(Then(a, b), n) == Then(a, First(b, k))
  {
  }

  lemma SameAsk<T, U>(p: Progress<T>, q: Progress<U>, log: seq<Reply>, s: seq<Message>, n: nat)
    requires Asking(p, log, s, n) && p.Wants? && q.Wants? && p.ask == q.ask
    ensures Asking(q, log, s, n)
  {
  }

  lemma AskingPastOne(defs: seq<Def>, s: seq<Message>, others: seq<Reply>, k: nat, n: nat)
    requires defs != [] && Ended(s) && PulledOne(defs[0], s).Got? && n == |LogOne(defs[0], s)| + k
    requires Asking(Walk(defs[1..], First(others, k)), others, PulledOne(defs[0], s).rest, k)
    ensures Asking(Walk(defs[1..], First(others, k)), Then(LogOne(defs[0], s), others), s, n)
  {
    hide *;
    var p := Walk(defs[1..], First(others, k));
    AskingWants(p, others, PulledOne(defs[0], s).rest, k);
    LogAheadOne(defs[0], s);
    AskingThen(p, p, s, LogOne(defs[0], s), PulledOne(defs[0], s).rest, others, k);
  }

  lemma WalkPastOne(defs: seq<Def>, s: seq<Message>, some: seq<Reply>)
    requires defs != [] && Ended(s) && PulledOne(defs[0], s).Got? && Walk(defs[1..], some).Wants?
    ensures Walk(defs, Then(LogOne(defs[0], s), some)) == Wants(Walk(defs[1..], some).ask)
  {
    WalkLogOne(defs[0], s, some);
    assert Then(LogOne(defs[0], s), some) == LogOne(defs[0], s) + some;
    WalkBoth(defs, Then(LogOne(defs[0], s), some), PulledOne(defs[0], s).value, some);
    hide *;
  }

  lemma WalkWants(defs: seq<Def>, r: seq<Reply>)
    ensures defs != [] && !SeesChoice(defs) && WalkOne(defs[0], r).Wants? ==>
              Walk(defs, r) == Wants(WalkOne(defs[0], r).ask)
  {
  }

  lemma {:induction false} WalkAsksOne(d: Def, s: seq<Message>, n: nat)
    requires Ended(s) && PulledOne(d, s).Got? && n < |LogOne(d, s)|
    ensures Asking(WalkOne(d, First(LogOne(d, s), n)), LogOne(d, s), s, n)
    decreases |s|, d, 0
  {
    if n == 0 {
      assert First(LogOne(d, s), n) == [];
    } else {
      LogOneThen(d, s, n);
      if d.Container? {
        WalkAsks(d.defs, Tail(s), n - 1);
        hide *;
        SubAsks(d, s, n, Walk(d.defs, First(Log(d.defs, Tail(s)), n - 1)), Log(d.defs, Tail(s)));
      } else {
        WalkAsksRows(d.defs, Tail(s), n - 1);
        hide *;
        SubAsks(d, s, n, WalkRows(d.defs, First(LogRows(d.defs, Tail(s)), n - 1)), LogRows(d.defs, Tail(s)));
      }
    }
  }

  lemma LogOneThen(d: Def, s: seq<Message>, n: nat)
    requires Ended(s) && PulledOne(d, s).Got? && 0 < n < |LogOne(d, s)|
    ensures (d.Container? || d.List?) && Matches(Child(d.ident), s[0]) && Ended(Tail(s)) && |Tail(s)| < |s|
    ensures d.Container? ==> Pulled(d.defs, Tail(s)).Got? && |LogOne(d, s)| == 1 + |Log(d.defs, Tail(s))|
                             && LogOne(d, s) == Then([Hit(s[0])], Log(d.defs, Tail(s)))
    ensures d.List? ==> PulledRows(d.defs, Tail(s)).Got? && |LogOne(d, s)| == 1 + |LogRows(d.defs, Tail(s))|
                        && LogOne(d, s) == Then([Hit(s[0])], LogRows(d.defs, Tail(s)))
  {
    hide Log, LogRows, Pulled, PulledRows;
  }

  /** The walk inside a container or list wants what the walk over it wants. */
  lemma SubAsks<T>(d: Def, s: seq<Message>, n: nat, p: Progress<T>, log: seq<Reply>)
    requires s != [] && 0 < n && (d.Container? || d.List?) && Matches(Child(d.ident), s[0])
    requires Asking(p, log, Tail(s), n - 1)
    requires d.Container? ==> (p.Wants? ==> Walk(d.defs, First(log, n - 1)) == Wants(p.ask))
    requires d.List? ==> (p.Wants? ==> WalkRows(d.defs, First(log, n - 1)) == Wants(p.ask))
    ensures Asking(WalkOne(d, First(Then([Hit(s[0])], log), n)), Then([Hit(s[0])], log), s, n)
  {
    hide *;
    var first := [Hit(s[0])];
    ChildAhead(s, d.ident);
    AskingWants(p, log, Tail(s), n - 1);
    FirstThen(first, log, n);
    InsideWants(d, s[0], First(log, n - 1));
    AskingThen(WalkOne(d, First(Then(first, log), n)), p, s, first, Tail(s), log, n - 1);
  }

  lemma ChildAhead(s: seq<Message>, ident: string)
    requires s != [] && Matches(Child(ident), s[0])
    ensures Ahead(s, [Hit(s[0])], Tail(s))
  {
    AheadFirst(s, Child(ident));
  }

  lemma InsideWants(d: Def, m: Message, r: seq<Reply>)
    requires d.Container? || d.List?
    ensures d.Container? && Walk(d.defs, r).Wants? ==> WalkOne(d, Then([Hit(m)], r)) == Wants(Walk(d.defs, r).ask)
    ensures d.List? && WalkRows(d.defs, r).Wants? ==> WalkOne(d, Then([Hit(m)], r)) == Wants(WalkRows(d.defs, r).ask)
  {
    assert Then([Hit(m)], r)[1..] == r;
    hide Walk, WalkRows;
  }

  lemma RowsWant(defs: seq<Def>, m: Message, r: seq<Reply>)
    requires m.PipeListItem?
    ensures Walk(defs, r).Wants? ==> WalkRows(defs, Then([Hit(m)], r)) == Wants(Walk(defs, r).ask)
  {
    assert Then([Hit(m)], r)[1..] == r;
    hide Walk;
  }

  lemma {:induction false} WalkAsksRows(defs: seq<Def>, s: seq<Message>, n: nat)
    requires Ended(s) && PulledRows(defs, s).Got? && n < |LogRows(defs, s)|
    ensures Asking(WalkRows(defs, First(LogRows(defs, s), n)), LogRows(defs, s), s, n)
    decreases |s|, defs, 2
  {
    if n == 0 {
      assert First(LogRows(defs, s), n) == [];
    } else {
      LogRowsThen(defs, s, n);
      hide *;
      var m := n - 1;
      if m < |Log(defs, Tail(s))| {
        WalkAsks(defs, Tail(s), m);
        RowAsks(defs, s, m, n);
      } else {
        var k := m - |Log(defs, Tail(s))|;
        WalkAsksRows(defs, Pulled(defs, Tail(s)).rest, k);
        RowsAskNext(defs, s, k, m, n);
      }
    }
  }

  lemma LogRowsThen(defs: seq<Def>, s: seq<Message>, n: nat)
    requires Ended(s) && PulledRows(defs, s).Got? && 0 < n < |LogRows(defs, s)|
    ensures s[0].PipeListItem? && Ended(Tail(s)) && |Tail(s)| < |s| && Pulled(defs, Tail(s)).Got?
    ensures var s1 := Pulled(defs, Tail(s)).rest;
            && Ended(s1) && |s1| < |s| && PulledRows(defs, s1).Got?
            && LogRows(defs, s) == Then([Hit(s[0])], Then(Log(defs, Tail(s)), LogRows(defs, s1)))
            && |LogRows(defs, s)| == 1 + |Log(defs, Tail(s))| + |LogRows(defs, s1)|
  {
    RowsLogBoth(defs, s, []);
  }

  lemma RowAsks(defs: seq<Def>, s: seq<Message>, m: nat, n: nat)
    requires Ended(s) && PulledRows(defs, s).Got? && n == m + 1 && n < |LogRows(defs, s)|
    requires Ended(Tail(s)) && Pulled(defs, Tail(s)).Got? && m < |Log(defs, Tail(s))|
    requires Asking(Walk(defs, First(Log(defs, Tail(s)), m)), Log(defs, Tail(s)), Tail(s), m)
    ensures Asking(WalkRows(defs, First(LogRows(defs, s), n)), LogRows(defs, s), s, n)
  {
    LogRowsThen(defs, s, n);
    hide *;
    var row, rows := Log(defs, Tail(s)), LogRows(defs, Pulled(defs, Tail(s)).rest);
    var p := Walk(defs, First(row, m));
    AskingWants(p, row, Tail(s), m);
    AskingFirst(p, p, Tail(s), row, rows, m);
    ItemAsks(s, p, Then(row, rows), m, n);
    FirstInside(row, rows, m);
    FirstPast([Hit(s[0])], Then(row, rows), m, n);
    RowsWant(defs, s[0], First(row, m));
    SameAsk(p, WalkRows(defs, First(LogRows(defs, s), n)), LogRows(defs, s), s, n);
  }

  lemma FirstInside(a: seq<Reply>, b: seq<Reply>, m: nat)
    requires m <= |a|
    ensures First(Then(a, b), m) == First(a, m)
  {
  }

  lemma RowsAskNext(defs: seq<Def>, s: seq<Message>, k: nat, m: nat, n: nat)
    requires Ended(s) && PulledRows(defs, s).Got? && n < |LogRows(defs, s)|
    requires Ended(Tail(s)) && Pulled(defs, Tail(s)).Got? && m == |Log(defs, Tail(s))| + k && n == 1 + m
    requires var s1 := Pulled(defs, Tail(s)).rest;
             PulledRows(defs, s1).Got? && Asking(WalkRows(defs, First(LogRows(defs, s1), k)), LogRows(defs, s1), s1, k)
    ensures Asking(WalkRows(defs, First(LogRows(defs, s), n)), LogRows(defs, s), s, n)
  {
    LogRowsThen(defs, s, n);
    hide *;
    var row, rows := Log(defs, Tail(s)), LogRows(defs, Pulled(defs, Tail(s)).rest);
    var p := WalkRows(defs, First(rows, k));
    AskingPastRow(defs, Tail(s), rows, k, m);
    AskingWants(p, Then(row, rows), Tail(s), m);
    ItemAsks(s, p, Then(row, rows), m, n);
    WalkPastRow(defs, s, First(rows, k));
    FirstPast(row, rows, k, m);
    FirstPast([Hit(s[0])], Then(row, rows), m, n);
    SameAsk(p, WalkRows(defs, First(LogRows(defs, s), n)), LogRows(defs, s), s, n);
  }

  lemma AskingPastRow(defs: seq<Def>, s: seq<Message>, rows: seq<Reply>, k: nat, n: nat)
    requires Ended(s) && Pulled(defs, s).Got? && Asking(WalkRows(defs, First(rows, k)), rows, Pulled(defs, s).rest, k)
    requires n == |Log(defs, s)| + k
    ensures Asking(WalkRows(defs, First(rows, k)), Then(Log(defs, s), rows), s, n)
  {
    hide *;
    var p := WalkRows(defs, First(rows, k));
    AskingWants(p, rows, Pulled(defs, s).rest, k);
    LogAhead(defs, s);
    AskingThen(p, p, s, Log(defs, s), Pulled(defs, s).rest, rows, k);
  }

  lemma ItemAsks<T>(s: seq<Message>, p: Progress<T>, log: seq<Reply>, k: nat, n: nat)
    requires s != [] && s[0].PipeListItem? && Asking(p, log, Tail(s), k) && p.Wants? && n == 1 + k
    ensures Asking(p, Then([Hit(s[0])], log), s, n)
  {
    ItemAhead(s);
    hide *;
    AskingThen(p, p, s, [Hit(s[0])], Tail(s), log, k);
  }

  lemma ItemAhead(s: seq<Message>)
    requires s != [] && s[0].PipeListItem?
    ensures Ahead(s, [Hit(s[0])], Tail(s))
  {
    AheadFirst(s, Next);
  }

  lemma WalkPastRow(defs: seq<Def>, s: seq<Message>, some: seq<Reply>)
    requires s != [] && s[0].PipeListItem? && Ended(Tail(s)) && Pulled(defs, Tail(s)).Got?
             && WalkRows(defs, some).Wants?
    ensures WalkRows(defs, Then([Hit(s[0])], Then(Log(defs, Tail(s)), some))) == Wants(WalkRows(defs, some).ask)
  {
    var r := Then([Hit(s[0])], Then(Log(defs, Tail(s)), some));
    WalkLog(defs, Tail(s), some);
    assert Then(Log(defs, Tail(s)), some) == Log(defs, Tail(s)) + some;
    LogFirst(Hit(s[0]), [], Then(Log(defs, Tail(s)), some));
    assert r == [Hit(s[0])] + Then(Log(defs, Tail(s)), some);
    hide *;
    WalkRowsBoth(defs, r, Pulled(defs, Tail(s)).value, some);
  }

  // ---------- the tree comes through in every interleaving ----------

  lemma AloneOnce(reader: Reader, s: seq<Message>, log: seq<Reply>, m: nat, n: nat, p: Progress<Data>)
    requires n == m + 1 && Alone(reader, s, m) == First(log, m)
    requires reader(First(log, m)) == (if p.Wants? then Some(p.ask) else None) && Asking(p, log, s, m)
    ensures Alone(reader, s, n) == First(log, n)
  {
    FirstNext(log, m, n);
    hide Hits, First;
  }

  lemma FirstNext(log: seq<Reply>, m: nat, n: nat)
    requires n == m + 1
    ensures m < |log| ==> First(log, n) == First(log, m) + [log[m]] && First(log, m) == log[..m]
  {
  }

  lemma AloneNoMore(reader: Reader, s: seq<Message>, m: nat, n: nat)
    requires n == m + 1 && reader(Alone(reader, s, m)).None?
    ensures Alone(reader, s, n) == Alone(reader, s, m)
  {
  }

  lemma ReadingWants(defs: seq<Def>, r: seq<Reply>)
    ensures Reading(defs)(r) == match Walk(defs, r) case Wants(a) => Some(a) case _ => None
  {
  }

  lemma FirstAll(log: seq<Reply>, n: nat)
    ensures |log| <= n ==> First(log, n) == log && log + [] == log
    ensures First(log, 0) == []
  {
  }

  /** With all messages lying ready the walk gets exactly the replies of the whole walk. */
  lemma {:induction false} AloneReadsLog(defs: seq<Def>, s: seq<Message>, n: nat)
    requires Ended(s) && Pulled(defs, s).Got?
    ensures Alone(Reading(defs), s, n) == First(Log(defs, s), n)
  {
    FirstAll(Log(defs, s), n);
    if n > 0 {
      hide *;
      var m := n - 1;
      AloneReadsLog(defs, s, m);
      ReadingWants(defs, First(Log(defs, s), m));
      if m < |Log(defs, s)| {
        WalkAsks(defs, s, m);
        AloneOnce(Reading(defs), s, Log(defs, s), m, n, Walk(defs, First(Log(defs, s), m)));
      } else {
        FirstAll(Log(defs, s), m);
        WalkLog(defs, s, []);
        AloneNoMore(Reading(defs), s, m, n);
      }
    }
  }

  lemma {:induction false} LivePushed(data: seq<Message>, ends: seq<Message>)
    requires forall i :: 0 <= i < |data| ==> !data[i].PipeEnd?
    requires ends != [] && forall i :: 0 <= i < |ends| ==> ends[i].PipeEnd?
    ensures Script(data + ends) && Live(data + ends) == data + [ends[0]]
  {
    var s := data + ends;
    if data == [] {
      assert s == ends;
    } else {
      LivePushed(data[1..], ends);
      assert s[1..] == data[1..] + ends;
    }
  }

  /**
    A tree pushed into the pipe, which is then closed once or more often without an error: in every interleaving
    the reading walk asks for as long as it has not got the whole tree, is never refused anything, and when it asks
    no more it has rebuilt exactly the tree.
  */
  lemma TreeComesThrough(defs: seq<Def>, t: Data, created: bool, ends: seq<Message>, run: seq<State>, n: nat)
    requires Plain(defs) && Clear(defs, created, {}) && Fits(defs, t, created)
    requires ends != [] && ends[0] == PipeEnd(None) && forall i :: 0 <= i < |ends| ==> ends[i].PipeEnd?
    requires Run(Reading(defs), Pushed(defs, t, created) + ends, run) && n < |run|
    ensures match Walk(defs, run[n].replies)
            case Wants(_) => true
            case Done(read, left) => read == t && left == []
            case Refused(_) => false
  {
    var script := Pushed(defs, t, created) + ends;
    PushedGoesOn(defs, t, created);
    LivePushed(Pushed(defs, t, created), ends);
    EveryInterleaving(Reading(defs), script, run, n);
    RoundTrip(defs, t, created);
    var s := Pushed(defs, t, created) + [PipeEnd(None)];
    var log, r := Log(defs, s), run[n].replies;
    AloneReadsLog(defs, s, |r|);
    if |r| < |log| {
      WalkAsks(defs, s, |r|);
      AskingWants(Walk(defs, First(log, |r|)), log, s, |r|);
    } else {
      WalkLog(defs, s, []);
      FirstAll(log, |r|);
    }
  }
}
