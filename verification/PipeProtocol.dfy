/**
  The two sides of the pipe running side by side. The reader is any program that decides from the replies so far
  what to ask next; sending and receiving meet on a channel without buffer, in any interleaving.
*/
module PipeProtocol {
  import opened Wrappers
  import opened DataSchema
  import opened DataTree
  import opened Pipe

  type Reader = seq<Reply> -> Option<Ask>

  /** What a writer sends: messages, then the end of its first Close, then the ends of further calls of Close. */
  ghost predicate Script(script: seq<Message>) {
    && script != [] && script[|script| - 1].PipeEnd?
    && forall i, j :: 0 <= i < j < |script| && script[i].PipeEnd? ==> script[j].PipeEnd?
  }

  /** The messages up to the first end, which are all that is ever received. */
  ghost function Live(script: seq<Message>): (r: seq<Message>)
    requires Script(script)
    ensures Ended(r) && r <= script
  {
    if script[0].PipeEnd? then script[..1]
    else
      assert forall i :: 0 <= i < |script[1..]| ==> script[1..][i] == script[i + 1];
      [script[0]] + Live(script[1..])
  }

  datatype State = State(
    sent: nat,                  // how many sends of the writer are over
    closed: bool,               // the channel has been closed
    received: seq<Message>,     // all that has been received from the channel
    position: Option<Message>,  // Pipe.position
    waiting: Option<Ask>,       // what the reader is being asked for
    replies: seq<Reply>)        // what the reader has answered

  const START := State(0, false, [], None, None, [])

  // ---------- steps ----------

  ghost predicate Asks(reader: Reader, s: State, s': State) {
    s.waiting.None? && reader(s.replies).Some? && s' == s.(waiting := reader(s.replies))
  }

  /** A send and the receive in `peek` meet; on the last message `peek` closes the channel. */
  ghost predicate Transfers(script: seq<Message>, s: State, s': State) {
    && s.waiting.Some? && s.position.None? && !s.closed && s.sent < |script|
    && s' == s.(sent := s.sent + 1, closed := script[s.sent].PipeEnd?, position := Some(script[s.sent]),
                received := s.received + [script[s.sent]])
  }

  /** A further Close finds the channel closed; its panic is recovered. */
  ghost predicate ClosesAgain(script: seq<Message>, s: State, s': State) {
    s.closed && s.sent < |script| && script[s.sent].PipeEnd? && s' == s.(sent := s.sent + 1)
  }

  ghost predicate Answers(s: State, s': State) {
    && s.waiting.Some? && s.position.Some?
    && s' == s.(waiting := None, replies := s.replies + [ReplyTo(s.waiting.value, s.position.value)],
                position := if Matches(s.waiting.value, s.position.value) then None else s.position)
  }

  ghost predicate Step(reader: Reader, script: seq<Message>, s: State, s': State) {
    Asks(reader, s, s') || Transfers(script, s, s') || ClosesAgain(script, s, s') || Answers(s, s')
  }

  /** A send of data on the closed channel, or a receive from it, both of which would crash. */
  ghost predicate Crashes(script: seq<Message>, s: State) {
    || (s.closed && s.sent < |script| && !script[s.sent].PipeEnd?)
    || (s.closed && s.waiting.Some? && s.position.None?)
  }

  ghost predicate Run(reader: Reader, script: seq<Message>, run: seq<State>) {
    run != [] && run[0] == START && forall i :: 0 <= i < |run| - 1 ==> Step(reader, script, run[i], run[i + 1])
  }

  // ---------- the reader by itself ----------

  /** The messages of the replies that matched. */
  ghost function Hits(replies: seq<Reply>): seq<Message> {
    if replies == [] then [] else
      Hits(replies[..|replies| - 1]) + if replies[|replies| - 1].Hit? then [replies[|replies| - 1].message] else []
  }

  /** The replies a reader gets if all messages lie ready, until it has asked `n` times or asks no more. */
  ghost function Alone(reader: Reader, messages: seq<Message>, n: nat): seq<Reply> {
    if n == 0 then [] else
      var before := Alone(reader, messages, n - 1);
      if reader(before).Some? && |Hits(before)| < |messages| then
        before + [ReplyTo(reader(before).value, messages[|Hits(before)|])]
      else before
  }

  /**
    What the `i`-th reply is: the first message that no earlier one has matched, if the ask is for it; else nothing,
    and at the end the error that it carries.
  */
  ghost predicate Answered(reader: Reader, messages: seq<Message>, replies: seq<Reply>, i: nat)
    requires i < |replies|
  {
    var h, ask := |Hits(replies[..i])|, reader(replies[..i]);
    && ask.Some? && h < |messages|
    && match messages[h]
       case PipeEnd(err) => replies[i] == Miss(err)
       case m => replies[i] == if Matches(ask.value, m) then Hit(m) else Miss(None)
  }

  lemma {:induction false} AloneAtMost(reader: Reader, messages: seq<Message>, n: nat)
    ensures |Alone(reader, messages, n)| <= n
  {
    if n > 0 {
      AloneAtMost(reader, messages, n - 1);
    }
  }

  lemma {:induction false} AloneAnswers(reader: Reader, messages: seq<Message>, n: nat, i: nat)
    requires |Alone(reader, messages, n)| == n && i < n
    ensures Answered(reader, messages, Alone(reader, messages, n), i)
  {
    var replies, before := Alone(reader, messages, n), Alone(reader, messages, n - 1);
    AloneAtMost(reader, messages, n - 1);
    if i < n - 1 {
      AloneAnswers(reader, messages, n - 1, i);
    }
    assert replies[..i] == before[..i] && before[..n - 1] == before;
    hide Hits, Matches;
  }

  // ---------- invariant ----------

  ghost predicate Extends(a: seq<Message>, b: seq<Message>) {
    |a| <= |b| && forall i :: 0 <= i < |a| ==> a[i] == b[i]
  }

  ghost predicate ChannelOk(script: seq<Message>, s: State)
    requires Script(script)
  {
    && Extends(s.received, Live(script)) && |s.received| <= s.sent <= |script|
    && (s.closed <==> |s.received| == |Live(script)|)
    && (!s.closed ==> s.sent == |s.received|)
    && (s.position.Some? ==> s.received != [] && s.position.value == s.received[|s.received| - 1])
    && (s.closed ==> s.position.Some?)
  }

  ghost predicate ReaderOk(reader: Reader, script: seq<Message>, s: State)
    requires Script(script)
  {
    && s.replies == Alone(reader, Live(script), |s.replies|)
    && Extends(Hits(s.replies), s.received)
    && |Hits(s.replies)| + (if s.position.Some? then 1 else 0) == |s.received|
    && (s.waiting.Some? ==> s.waiting == reader(s.replies))
  }

  ghost predicate Inv(reader: Reader, script: seq<Message>, s: State)
    requires Script(script)
  {
    ChannelOk(script, s) && ReaderOk(reader, script, s)
  }

  lemma LiveSends(script: seq<Message>, i: nat)
    requires Script(script) && i < |Live(script)|
    ensures script[i] == Live(script)[i] && (script[i].PipeEnd? <==> i == |Live(script)| - 1)
  {
  }

  lemma LiveIsAll(script: seq<Message>, i: nat)
    requires Script(script) && |Live(script)| <= i < |script|
    ensures script[i].PipeEnd?
  {
    LiveSends(script, |Live(script)| - 1);
  }

  lemma TransferKeeps(reader: Reader, script: seq<Message>, s: State, s': State)
    requires Script(script) && Inv(reader, script, s) && Transfers(script, s, s')
    ensures ChannelOk(script, s')
  {
    assert s.sent == |s.received| && |s.received| < |Live(script)|;
    LiveSends(script, s.sent);
    ExtendsNext(s.received, Live(script));
    hide Alone, Hits, Live, Script, Ended, ReaderOk, Extends;
  }

  lemma ExtendsNext(a: seq<Message>, b: seq<Message>)
    ensures Extends(a, b) && |a| < |b| ==> Extends(a + [b[|a|]], b)
  {
  }

  lemma TransferKeepsReader(reader: Reader, script: seq<Message>, s: State, s': State)
    requires Script(script) && Inv(reader, script, s) && Transfers(script, s, s')
    ensures ReaderOk(reader, script, s')
  {
    hide Alone, Hits, Live, Script, Ended;
  }

  lemma AnswerKeeps(reader: Reader, script: seq<Message>, s: State, s': State)
    requires Script(script) && Inv(reader, script, s) && Answers(s, s')
    ensures ChannelOk(script, s')
  {
    LiveSends(script, |s.received| - 1);
    hide Alone, Hits, Live, Script, Ended, ReaderOk;
  }

  lemma AnswerKeepsReader(reader: Reader, script: seq<Message>, s: State, s': State)
    requires Script(script) && Inv(reader, script, s) && Answers(s, s')
    ensures ReaderOk(reader, script, s')
  {
    var hits := Hits(s.replies);
    AnsweredLast(reader, script, s);
    OneMoreReply(reader, Live(script), s.replies, s.waiting.value, s.position.value, s'.replies);
    HitsExtend(hits, s.received, s.position.value);
    hide Alone, Hits, Live, Script, Ended, Extends, ChannelOk, Matches, ReplyTo;
  }

  lemma AnsweredLast(reader: Reader, script: seq<Message>, s: State)
    requires Script(script) && Inv(reader, script, s) && s.waiting.Some? && s.position.Some?
    ensures var n := |Hits(s.replies)|;
            n + 1 == |s.received| && n < |Live(script)| && Live(script)[n] == s.position.value == s.received[n]
    ensures reader(s.replies) == s.waiting && s.replies == Alone(reader, Live(script), |s.replies|)
    ensures Extends(Hits(s.replies), s.received)
  {
    hide Alone, Hits, Live, Script, Ended;
  }

  lemma HitsExtend(hits: seq<Message>, received: seq<Message>, m: Message)
    requires Extends(hits, received) && |hits| + 1 == |received| && m == received[|hits|]
    ensures Extends(hits + [m], received)
  {
  }

  lemma OneMoreReply(reader: Reader, messages: seq<Message>, replies: seq<Reply>, a: Ask, m: Message, more: seq<Reply>)
    requires replies == Alone(reader, messages, |replies|) && reader(replies) == Some(a)
    requires |Hits(replies)| < |messages| && messages[|Hits(replies)|] == m
    requires more == replies + [ReplyTo(a, m)]
    ensures more == Alone(reader, messages, |more|)
    ensures Hits(more) == if Matches(a, m) then Hits(replies) + [m] else Hits(replies)
  {
    assert more[..|more| - 1] == replies;
  }

  lemma StepKeeps(reader: Reader, script: seq<Message>, s: State, s': State)
    requires Script(script) && Inv(reader, script, s) && Step(reader, script, s, s')
    ensures Inv(reader, script, s')
  {
    if Transfers(script, s, s') {
      TransferKeeps(reader, script, s, s');
      TransferKeepsReader(reader, script, s, s');
    } else if Answers(s, s') {
      AnswerKeeps(reader, script, s, s');
      AnswerKeepsReader(reader, script, s, s');
    }
    hide Script, Alone, Hits, Live, Extends, Transfers, Answers, ReplyTo, Matches;
  }

  lemma {:induction false} AlwaysInv(reader: Reader, script: seq<Message>, run: seq<State>, n: nat)
    requires Script(script) && Run(reader, script, run) && n < |run|
    ensures Inv(reader, script, run[n])
  {
    if n > 0 {
      AlwaysInv(reader, script, run, n - 1);
      assert Step(reader, script, run[n - 1], run[n - 1 + 1]);
      StepKeeps(reader, script, run[n - 1], run[n]);
    }
  }

  // ---------- what holds in every interleaving ----------

  /**
    At any time of any run: what the reader consumed is, in order, a beginning of what the writer sent, nothing was
    received after the end, the end is never consumed, each reply is what the first message not yet consumed gives, and
    neither side crashes; so the replies are those the reader would get with all messages lying ready.
  */
  lemma EveryInterleaving(reader: Reader, script: seq<Message>, run: seq<State>, n: nat)
    requires Script(script) && Run(reader, script, run) && n < |run|
    ensures run[n].sent <= |script|
    ensures Extends(Hits(run[n].replies), run[n].received) && Extends(run[n].received, script[..run[n].sent])
    ensures forall i :: 0 <= i < |run[n].received| - 1 ==> !run[n].received[i].PipeEnd?
    ensures forall i :: 0 <= i < |Hits(run[n].replies)| ==> !Hits(run[n].replies)[i].PipeEnd?
    ensures forall i :: 0 <= i < |run[n].replies| ==> Answered(reader, script, run[n].replies, i)
    ensures run[n].replies == Alone(reader, Live(script), |run[n].replies|)
    ensures !Crashes(script, run[n])
  {
    AlwaysInv(reader, script, run, n);
    hide Alone, Hits, Run, Answered;
    ReceivedOk(reader, script, run[n]);
    RepliesOk(reader, script, run[n].replies);
  }

  lemma RepliesOk(reader: Reader, script: seq<Message>, replies: seq<Reply>)
    requires Script(script) && replies == Alone(reader, Live(script), |replies|)
    ensures forall i :: 0 <= i < |replies| ==> Answered(reader, script, replies, i)
  {
    hide Alone, Script, Matches, Hits;
    forall i | 0 <= i < |replies| ensures Answered(reader, script, replies, i) {
      AloneAnswers(reader, Live(script), |replies|, i);
      LiveSends(script, |Hits(replies[..i])|);
    }
  }

  lemma ReceivedOk(reader: Reader, script: seq<Message>, s: State)
    requires Script(script) && Inv(reader, script, s)
    ensures s.sent <= |script|
    ensures forall i :: 0 <= i < |s.received| ==>
              s.received[i] == script[i] && (s.received[i].PipeEnd? ==> i == |Live(script)| - 1)
    ensures |s.received| <= s.sent && |Hits(s.replies)| < |Live(script)|
    ensures !Crashes(script, s)
  {
    forall i | 0 <= i < |s.received|
      ensures s.received[i] == script[i] && (s.received[i].PipeEnd? ==> i == |Live(script)| - 1)
    {
      LiveSends(script, i);
    }
    if s.closed && s.sent < |script| {
      LiveIsAll(script, s.sent);
    }
  }

  /** Whenever the reader still wants something it can go on, so it never waits for ever. */
  lemma NeverStuck(reader: Reader, script: seq<Message>, run: seq<State>)
    requires Script(script) && Run(reader, script, run)
    requires var s := run[|run| - 1]; s.waiting.Some? || reader(s.replies).Some?
    ensures var s := run[|run| - 1]; exists s' :: Asks(reader, s, s') || Transfers(script, s, s') || Answers(s, s')
  {
    var s := run[|run| - 1];
    AlwaysInv(reader, script, run, |run| - 1);
    if s.waiting.None? {
      assert Asks(reader, s, s.(waiting := reader(s.replies)));
    } else if s.position.Some? {
      assert Answers(s, s.(waiting := None, replies := s.replies + [ReplyTo(s.waiting.value, s.position.value)],
                           position := if Matches(s.waiting.value, s.position.value) then None else s.position));
    } else {
      assert Transfers(script, s,
                       s.(sent := s.sent + 1, closed := script[s.sent].PipeEnd?, position := Some(script[s.sent]),
                                     received := s.received + [script[s.sent]]));
    }
  }
}
