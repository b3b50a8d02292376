/**
  How the runs of the pipe end. The reader is never left waiting, but the writer is: after its last message it
  offers the end, which the reader receives only if it asks once more than there are messages.
*/
module PipeRuns {
  import opened Wrappers
  import opened DataSchema
  import opened SchemaNames
  import opened DataTree
  import opened Pipe
  import opened PipeProtocol
  import opened PipeReader

  // ---------- every run ends ----------

  ghost function Counted(s: State): nat {
    2 * |s.replies| + (if s.waiting.Some? then 1 else 0) + s.sent
  }

  /** Every step is an ask, an answer or a send, so these count the steps, for any reader. */
  lemma {:induction false} StepsAre(reader: Reader, script: seq<Message>, run: seq<State>, n: nat)
    requires Run(reader, script, run) && n < |run|
    ensures n == Counted(run[n])
  {
    if n > 0 {
      StepsAre(reader, script, run, n - 1);
      assert Step(reader, script, run[n - 1], run[n - 1 + 1]);
    }
  }

  ghost predicate LastMisses(replies: seq<Reply>) {
    replies != [] && replies[|replies| - 1].Miss?
  }

  /** Between two asks a message is held exactly if the last reply was a miss. */
  lemma {:induction false} HeldAfterMiss(reader: Reader, script: seq<Message>, run: seq<State>, n: nat)
    requires Run(reader, script, run) && n < |run|
    ensures run[n].waiting.None? ==> (run[n].position.Some? <==> LastMisses(run[n].replies))
  {
    if n > 0 {
      HeldAfterMiss(reader, script, run, n - 1);
      assert Step(reader, script, run[n - 1], run[n - 1 + 1]);
    }
  }

  // ---------- when the last ask is a miss ----------

  /** Having got all of the data, the walk asks once more. */
  ghost predicate AsksOnceMore(defs: seq<Def>, t: Data, created: bool)
    decreases t, |defs|
  {
    defs != [] && if |defs| > 1 then AsksOnceMore(defs[1..], t, created) else AsksOnceMoreOne(defs[0], t, created)
  }

  ghost predicate AsksOnceMoreOne(d: Def, t: Data, created: bool)
    decreases t, 0
  {
    match d
    case Leaf(_, _) => ValueOf(d, t, created).None?
    case Container(id, defs) => HasSub(t, id) ==> AsksOnceMore(defs, t.subs[id], true)
    case List(_, _) => true
    case Choice(_, _) => false
  }

  lemma LogOneStarts(d: Def, s: seq<Message>)
    requires Ended(s) && PulledOne(d, s).Got?
    ensures LogOne(d, s) != []
  {
  }

  lemma LogStarts(defs: seq<Def>, s: seq<Message>)
    requires defs != [] && Ended(s) && Pulled(defs, s).Got?
    ensures Log(defs, s) != []
  {
    LogBoth(defs, s, []);
    LogOneStarts(defs[0], s);
    hide LogOne, PulledOne, Pulled;
  }

  lemma {:induction false} RowsMissLast(defs: seq<Def>, s: seq<Message>)
    requires Ended(s) && PulledRows(defs, s).Got?
    ensures LastMisses(LogRows(defs, s))
    decreases |s|
  {
    if Matches(Next, s[0]) {
      RowsLogBoth(defs, s, []);
      var s1 := Pulled(defs, s[1..]).rest;
      hide Pulled, Log, PulledRows, LogRows;
      RowsMissLast(defs, s1);
    }
  }

  /** The last reply of the walk over some data is a miss exactly if the walk asks once more. */
  lemma {:induction false} MissesLast(defs: seq<Def>, t: Data, created: bool, follow: set<Ask>, rest: seq<Message>)
    requires Clear(defs, created, follow) && Ended(rest) && Comes(rest[0], follow)
    ensures var s := Pushed(defs, t, created) + rest;
            Ended(s) && Pulled(defs, s).Got? && (LastMisses(Log(defs, s)) <==> AsksOnceMore(defs, t, created))
    decreases t, |defs|, 1
  {
    PullPushed(defs, t, created, follow, rest);
    if defs != [] {
      ClearParts(defs, created, follow);
      hide *;
      PushedEnded(defs[1..], t, created, rest);
      PushedComes(defs[1..], t, created, follow, rest);
      PushedBoth(defs, t, created, rest);
      MissesLastOne(defs[0], t, created, Coming(defs[1..], created, follow), Pushed(defs[1..], t, created) + rest);
      LastParts(defs, Pushed(defs, t, created) + rest);
      if |defs| > 1 {
        MissesLast(defs[1..], t, created, follow, rest);
      }
      OnceMoreParts(defs, t, created);
    }
  }

  lemma OnceMoreParts(defs: seq<Def>, t: Data, created: bool)
    ensures AsksOnceMore(defs, t, created) <==>
              defs != [] && if |defs| > 1 then AsksOnceMore(defs[1..], t, created)
                else AsksOnceMoreOne(defs[0], t, created)
  {
  }

  lemma LastParts(defs: seq<Def>, s: seq<Message>)
    requires defs != [] && Ended(s) && Pulled(defs, s).Got?
    ensures PulledOne(defs[0], s).Got? && Pulled(defs[1..], PulledOne(defs[0], s).rest).Got?
    ensures LastMisses(Log(defs, s)) <==>
              LastMisses(if |defs| > 1 then Log(defs[1..], PulledOne(defs[0], s).rest) else LogOne(defs[0], s))
  {
    LogBoth(defs, s, []);
    if |defs| > 1 {
      LogStarts(defs[1..], PulledOne(defs[0], s).rest);
    }
    hide Pulled, PulledOne, LogOne, Ended;
  }

  lemma {:induction false} MissesLastOne(d: Def, t: Data, created: bool, coming: set<Ask>, rest: seq<Message>)
    requires ClearOne(d, created, coming) && Ended(rest) && Comes(rest[0], coming)
    ensures var s := PushedOne(d, t, created) + rest;
            && Ended(s) && PulledOne(d, s) == Got(SeenOne(d, t, created), rest)
            && (LastMisses(LogOne(d, s)) <==> AsksOnceMoreOne(d, t, created))
    decreases t, 0, 0
  {
    PullPushedOne(d, t, created, coming, rest);
    if PushedOne(d, t, created) == [] {
      assert PushedOne(d, t, created) + rest == rest;
      MissesAll(d, t, created, coming, rest);
    } else {
      OneAhead(d, t, created, rest);
      if d.Container? {
        ClearInside(d, created, coming, rest[0]);
        hide *;
        MissesLast(d.defs, t.subs[d.ident], true, coming, rest);
      }
      hide *;
      MissesInside(d, t, created, rest);
    }
  }

  lemma MissesInside(d: Def, t: Data, created: bool, rest: seq<Message>)
    requires PushedOne(d, t, created) != [] && Ended(rest) && !d.Choice?
    requires var s := PushedOne(d, t, created) + rest; Ended(s) && PulledOne(d, s).Got?
    requires d.Container? ==> HasSub(t, d.ident)
    requires d.Container? ==> var s := Pushed(d.defs, t.subs[d.ident], true) + rest;
                              Ended(s) && Pulled(d.defs, s).Got?
                              && (LastMisses(Log(d.defs, s)) <==> AsksOnceMore(d.defs, t.subs[d.ident], true))
    ensures LastMisses(LogOne(d, PushedOne(d, t, created) + rest)) <==> AsksOnceMoreOne(d, t, created)
  {
    OneAhead(d, t, created, rest);
    hide Pushed, Pulled, PulledOne, PulledRows, PushedRows, PushedOne, Log, LogOne, Ended, AsksOnceMore, LastMisses;
    InsideLast(d, PushedOne(d, t, created) + rest);
  }

  lemma InsideLast(d: Def, s: seq<Message>)
    requires Ended(s) && PulledOne(d, s).Got? && !d.Choice?
             && Matches(if d.Leaf? then Field(d.ident) else Child(d.ident), s[0])
    ensures d.Leaf? ==> !LastMisses(LogOne(d, s))
    ensures d.List? ==> LastMisses(LogOne(d, s))
    ensures d.Container? ==> Ended(s[1..]) && Pulled(d.defs, s[1..]).Got?
                             && (LastMisses(LogOne(d, s)) <==> LastMisses(Log(d.defs, s[1..])))
  {
    LogOneParts(d, s);
    if d.List? {
      RowsMissLast(d.defs, s[1..]);
    }
    hide Pulled, PulledOne, PulledRows, Log, LogRows, LogOne, Ended;
  }

  lemma MissesAll(d: Def, t: Data, created: bool, coming: set<Ask>, rest: seq<Message>)
    requires ClearOne(d, created, coming) && PushedOne(d, t, created) == [] && Ended(rest) && Comes(rest[0], coming)
    ensures PulledOne(d, rest).Got? && LastMisses(LogOne(d, rest)) && AsksOnceMoreOne(d, t, created)
  {
    NothingAhead(d, t, created, coming, rest);
    PushedOneStarts(d, t, created);
    ComesIs(rest[0], coming, AskFor(d));
    hide Pushed, PushedRows, Pulled, PulledRows, Seen, SeenRows, Clear, Comes, Ended, Log, LogRows, AsksOnceMore;
  }

  // ---------- how runs end ----------

  /** A tree that fits its schema, and the end, which may be offered several times. */
  ghost predicate Sound(defs: seq<Def>, t: Data, created: bool, ends: seq<Message>) {
    && Plain(defs) && Clear(defs, created, {}) && Fits(defs, t, created)
    && ends != [] && ends[0] == PipeEnd(None) && forall i :: 0 <= i < |ends| ==> ends[i].PipeEnd?
  }

  lemma WholeLog(defs: seq<Def>, t: Data, created: bool)
    requires Plain(defs) && Clear(defs, created, {}) && Fits(defs, t, created)
    ensures var s := Pushed(defs, t, created) + [PipeEnd(None)];
            Ended(s) && Pulled(defs, s).Got? && |Hits(Log(defs, s))| + 1 == |s|
            && (LastMisses(Log(defs, s)) <==> AsksOnceMore(defs, t, created))
  {
    var s := Pushed(defs, t, created) + [PipeEnd(None)];
    RoundTrip(defs, t, created);
    MissesLast(defs, t, created, {}, [PipeEnd(None)]);
    LogAhead(defs, s);
  }

  /** The replies are a beginning of those of the whole walk, and all of them exactly if it asks no more. */
  lemma RepliesInLog(defs: seq<Def>, s: seq<Message>, replies: seq<Reply>)
    requires Ended(s) && Pulled(defs, s).Got? && replies == Alone(Reading(defs), s, |replies|)
    ensures |replies| <= |Log(defs, s)|
    ensures if |replies| == |Log(defs, s)| then replies == Log(defs, s) && Walk(defs, replies).Done?
            else Walk(defs, replies).Wants?
  {
    var log, n := Log(defs, s), |replies|;
    AloneReadsLog(defs, s, n);
    hide *;
    if n < |log| {
      WalkAsks(defs, s, n);
      AskingWants(Walk(defs, First(log, n)), log, s, n);
    } else {
      WalkLog(defs, s, []);
      FirstAll(log, n);
    }
  }

  lemma InRun(defs: seq<Def>, t: Data, created: bool, ends: seq<Message>, run: seq<State>, n: nat)
    requires Sound(defs, t, created, ends)
    requires Run(Reading(defs), Pushed(defs, t, created) + ends, run) && n < |run|
    ensures var script, s := Pushed(defs, t, created) + ends, Pushed(defs, t, created) + [PipeEnd(None)];
            && Script(script) && Live(script) == s && Ended(s) && Pulled(defs, s).Got?
            && Inv(Reading(defs), script, run[n]) && run[n].replies == Alone(Reading(defs), s, |run[n].replies|)
  {
    var script := Pushed(defs, t, created) + ends;
    PushedGoesOn(defs, t, created);
    LivePushed(Pushed(defs, t, created), ends);
    AlwaysInv(Reading(defs), script, run, n);
    RoundTrip(defs, t, created);
    hide Pushed, Run, Plain, Clear, Fits, Pulled, Alone, Live, Script, Ended, Hits, Extends;
  }

  lemma WaitsForWants(defs: seq<Def>, script: seq<Message>, s: State)
    requires Script(script) && Inv(Reading(defs), script, s)
    ensures s.waiting.Some? ==> Walk(defs, s.replies).Wants?
  {
    ReadingWants(defs, s.replies);
    hide Walk, Alone, Hits, Live, Script, Extends;
  }

  /** No run is longer than the asks, the answers and the messages sent. */
  lemma RunsAreBounded(defs: seq<Def>, t: Data, created: bool, ends: seq<Message>, run: seq<State>)
    requires Sound(defs, t, created, ends) && Run(Reading(defs), Pushed(defs, t, created) + ends, run)
    ensures var s := Pushed(defs, t, created) + [PipeEnd(None)];
            Ended(s) && Pulled(defs, s).Got? && |run| - 1 <= 2 * |Log(defs, s)| + |Pushed(defs, t, created) + ends|
  {
    var n := |run| - 1;
    var script, s := Pushed(defs, t, created) + ends, Pushed(defs, t, created) + [PipeEnd(None)];
    InRun(defs, t, created, ends, run, n);
    RepliesInLog(defs, s, run[n].replies);
    WaitsForWants(defs, script, run[n]);
    StepsAre(Reading(defs), script, run, n);
    hide Pushed, Run, Sound, Pulled, Alone, Live, Script, Ended, Hits, Extends, ReaderOk, Walk, Log;
  }

  /** When the walk is over, the end has been received if and only if the walk asked once more than it had to. */
  lemma EndReceived(defs: seq<Def>, t: Data, created: bool, ends: seq<Message>, run: seq<State>, n: nat)
    requires Sound(defs, t, created, ends)
    requires Run(Reading(defs), Pushed(defs, t, created) + ends, run) && n < |run| && Walk(defs, run[n].replies).Done?
    ensures run[n].waiting.None? && (run[n].closed <==> AsksOnceMore(defs, t, created))
  {
    var script, s := Pushed(defs, t, created) + ends, Pushed(defs, t, created) + [PipeEnd(None)];
    InRun(defs, t, created, ends, run, n);
    RepliesInLog(defs, s, run[n].replies);
    WaitsForWants(defs, script, run[n]);
    WholeLog(defs, t, created);
    HeldAfterMiss(Reading(defs), script, run, n);
    hide Pushed, Run, Sound, Pulled, Alone, Live, Script, Ended, Hits, Extends, Walk, Log, LastMisses, AsksOnceMore;
  }

  /** No step is possible any more. */
  ghost predicate Over(reader: Reader, script: seq<Message>, s: State) {
    forall s' :: !Step(reader, script, s, s')
  }

  /**
    A run in which no more step is possible: the reader has got exactly the tree, and the writer is through with all
    its sends if and only if the walk asked once more than it had to; else its Close waits for ever.
  */
  lemma RunsEnd(defs: seq<Def>, t: Data, created: bool, ends: seq<Message>, run: seq<State>)
    requires Sound(defs, t, created, ends) && Run(Reading(defs), Pushed(defs, t, created) + ends, run)
    requires Over(Reading(defs), Pushed(defs, t, created) + ends, run[|run| - 1])
    ensures var s := run[|run| - 1];
            && Walk(defs, s.replies) == Done(t, [])
            && (s.sent == |Pushed(defs, t, created) + ends| <==> AsksOnceMore(defs, t, created))
            && (s.closed <==> AsksOnceMore(defs, t, created))
  {
    var n := |run| - 1;
    var script, last := Pushed(defs, t, created) + ends, run[n];
    InRun(defs, t, created, ends, run, n);
    if Reading(defs)(last.replies).Some? {
      AskedGoesOn(Reading(defs), script, run);
    }
    AllSent(Reading(defs), script, last);
    ReadingWants(defs, last.replies);
    hide *;
    SoundComesThrough(defs, t, created, ends, run, n);
    EndReceived(defs, t, created, ends, run, n);
  }

  lemma SoundComesThrough(defs: seq<Def>, t: Data, created: bool, ends: seq<Message>, run: seq<State>, n: nat)
    requires Sound(defs, t, created, ends) && Run(Reading(defs), Pushed(defs, t, created) + ends, run) && n < |run|
    ensures Walk(defs, run[n].replies).Wants? || Walk(defs, run[n].replies) == Done(t, [])
  {
    TreeComesThrough(defs, t, created, ends, run, n);
  }

  lemma AskedGoesOn(reader: Reader, script: seq<Message>, run: seq<State>)
    requires Script(script) && Run(reader, script, run) && reader(run[|run| - 1].replies).Some?
    ensures !Over(reader, script, run[|run| - 1])
  {
    NeverStuck(reader, script, run);
    var s := run[|run| - 1];
    hide Run, Script, Asks, Transfers, Answers;
    var s' :| Asks(reader, s, s') || Transfers(script, s, s') || Answers(s, s');
    assert Step(reader, script, s, s');
  }

  lemma ClosedGoesOn(reader: Reader, script: seq<Message>, s: State)
    requires Script(script) && Inv(reader, script, s) && s.closed && s.sent < |script|
    ensures !Over(reader, script, s)
  {
    LiveIsAll(script, s.sent);
    assert Step(reader, script, s, s.(sent := s.sent + 1));
  }

  lemma AllSent(reader: Reader, script: seq<Message>, s: State)
    requires Script(script) && Inv(reader, script, s) && Over(reader, script, s)
    ensures s.sent == |script| <==> s.closed
  {
    if s.closed && s.sent < |script| {
      ClosedGoesOn(reader, script, s);
    }
    if !s.closed {
      assert s.sent < |Live(script)|;
    }
  }

  // ---------- a writer that waits for ever ----------

  const X := Leaf("x", None)
  const ONE_LEAF := Obj(map["x" := "1"], map[])

  ghost function WaitingRun(): seq<State> {
    var m := PipeLeaf("x", "1");
    [START,
     START.(waiting := Some(Field("x"))),
     State(1, false, [m], Some(m), Some(Field("x")), []),
     State(1, false, [m], None, None, [Hit(m)])]
  }

  /** One leaf: the walk has it and asks no more, so nobody receives the end that the writer offers. */
  lemma WriterWaits()
    ensures Sound([X], ONE_LEAF, false, [PipeEnd(None)]) && !AsksOnceMore([X], ONE_LEAF, false)
    ensures var script, run := Pushed([X], ONE_LEAF, false) + [PipeEnd(None)], WaitingRun();
            && Run(Reading([X]), script, run) && run[3].sent < |script|
            && Over(Reading([X]), script, run[3])
  {
    var m := PipeLeaf("x", "1");
    PushedFirst([X], ONE_LEAF, false);
    PushedFirst([], ONE_LEAF, false);
    assert Pushed([X], ONE_LEAF, false) + [PipeEnd(None)] == [m, PipeEnd(None)];
    ReadingWants([X], []);
    ReadingWants([X], [Hit(m)]);
    assert WalkOne(X, [Hit(m)]) == Done(Obj(map["x" := "1"], map[]), []);
    VisitedFirst([X], ONE_LEAF, false);
    VisitedFirst([], ONE_LEAF, false);
  }
}
