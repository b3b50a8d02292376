/** The pipe closed with an error: it reaches the reader as soon as that asks for more than was sent. */
module PipeErrors {
  import opened Wrappers
  import opened DataSchema
  import opened SchemaNames
  import opened DataTree
  import opened Pipe
  import opened PipeProtocol
  import opened PipeReader

  // ---------- messages cut short ----------

  /** The first `k` messages, and then the end with an error. */
  ghost function Cut(s: seq<Message>, k: nat, e: string): (r: seq<Message>)
    requires k < |s|
  {
    s[..k] + [PipeEnd(Some(e))]
  }

  lemma CutEnded(s: seq<Message>, k: nat, e: string)
    requires Ended(s) && k < |s|
    ensures Ended(Cut(s, k, e)) && |Cut(s, k, e)| == k + 1
    ensures k == 0 ==> Cut(s, k, e)[0] == PipeEnd(Some(e))
    ensures k > 0 ==> Cut(s, k, e)[0] == s[0] && !s[0].PipeEnd? && Ended(s[1..])
    ensures k > 0 ==> Cut(s, k, e)[1..] == Cut(s[1..], k - 1, e)
  {
  }

  /** What is read of messages cut short after `k`, if of all of them it is `whole`. */
  ghost predicate CutShort<T>(whole: Read<T>, cut: Read<T>, s: seq<Message>, k: nat, e: string)
    requires whole.Got?
  {
    var left := k + |whole.rest| - |s|;
    if left < 0 then cut == Failed(e)
    else (left == 0 && cut == Failed(e)) || (left < |whole.rest| && cut == Got(whole.value, Cut(whole.rest, left, e)))
  }

  lemma {:induction false} PulledCut(defs: seq<Def>, s: seq<Message>, k: nat, e: string)
    requires Ended(s) && k < |s| && Pulled(defs, s).Got?
    ensures Ended(Cut(s, k, e)) && CutShort(Pulled(defs, s), Pulled(defs, Cut(s, k, e)), s, k, e)
    decreases |s|, defs, 1
  {
    CutEnded(s, k, e);
    if defs != [] {
      var one := PulledOne(defs[0], s);
      assert one.Got?;
      hide PulledOne, Ended, Cut, Join;
      PulledOneCut(defs[0], s, k, e);
      var left := k + |one.rest| - |s|;
      if left >= 0 {
        CutEnded(one.rest, left, e);
        PulledCut(defs[1..], one.rest, left, e);
      }
    }
  }

  lemma {:induction false} PulledOneCut(d: Def, s: seq<Message>, k: nat, e: string)
    requires Ended(s) && k < |s| && PulledOne(d, s).Got?
    ensures Ended(Cut(s, k, e)) && CutShort(PulledOne(d, s), PulledOne(d, Cut(s, k, e)), s, k, e)
    decreases |s|, d, 0
  {
    hide Pulled, PulledRows, Cut, Ended;
    CutEnded(s, k, e);
    match d
    case Leaf(_, _) =>
    case Container(id, defs) =>
      if k > 0 && Matches(Child(id), s[0]) {
        PulledCut(defs, s[1..], k - 1, e);
      }
    case List(id, defs) =>
      if k > 0 && Matches(Child(id), s[0]) {
        PulledRowsCut(defs, s[1..], k - 1, e);
      }
    case Choice(_, _) => assert false;
  }

  lemma {:induction false} PulledRowsCut(defs: seq<Def>, s: seq<Message>, k: nat, e: string)
    requires Ended(s) && k < |s| && PulledRows(defs, s).Got?
    ensures Ended(Cut(s, k, e)) && CutShort(PulledRows(defs, s), PulledRows(defs, Cut(s, k, e)), s, k, e)
    decreases |s|, defs, 2
  {
    hide Pulled, Cut, Ended;
    CutEnded(s, k, e);
    if k > 0 && Matches(Next, s[0]) {
      var row := Pulled(defs, s[1..]);
      PulledCut(defs, s[1..], k - 1, e);
      var left := k + |row.rest| - |s|;
      if left >= 0 {
        CutEnded(row.rest, left, e);
        PulledRowsCut(defs, row.rest, left, e);
      }
    }
  }

  /** Data cut short by an error are never read as whole data: reading fails with that error. */
  lemma CutFails(defs: seq<Def>, t: Data, created: bool, k: nat, e: string)
    requires Clear(defs, created, {}) && k < |Pushed(defs, t, created)|
    ensures var s := Pushed(defs, t, created)[..k] + [PipeEnd(Some(e))];
            Ended(s) && Pulled(defs, s) == Failed(e)
  {
    var all := Pushed(defs, t, created) + [PipeEnd(None)];
    PullPushed(defs, t, created, {}, [PipeEnd(None)]);
    hide *;
    CutOf(all, Pushed(defs, t, created), k, e);
    PulledCut(defs, all, k, e);
    CutShortIs(Pulled(defs, all), Pulled(defs, Cut(all, k, e)), all, k, e);
  }

  lemma CutOf(all: seq<Message>, some: seq<Message>, k: nat, e: string)
    requires k <= |some| < |all| && some <= all
    ensures Cut(all, k, e) == some[..k] + [PipeEnd(Some(e))]
  {
  }

  lemma CutShortIs<T>(whole: Read<T>, cut: Read<T>, s: seq<Message>, k: nat, e: string)
    requires whole.Got? && CutShort(whole, cut, s, k, e) && k + |whole.rest| < |s|
    ensures cut == Failed(e)
  {
  }

  // ---------- a walk that is told of an error ----------

  lemma {:induction false} WalkMore(defs: seq<Def>, r: seq<Reply>, more: seq<Reply>)
    requires Walk(defs, r).Done?
    ensures Walk(defs, r + more) == Done(Walk(defs, r).value, Walk(defs, r).left + more)
    decreases |r|, defs, 1
  {
    if defs != [] {
      hide WalkOne;
      WalkOneMore(defs[0], r, more);
      WalkMore(defs[1..], WalkOne(defs[0], r).left, more);
    }
  }

  lemma {:induction false} WalkOneMore(d: Def, r: seq<Reply>, more: seq<Reply>)
    requires WalkOne(d, r).Done?
    ensures WalkOne(d, r + more) == Done(WalkOne(d, r).value, WalkOne(d, r).left + more)
    decreases |r|, d, 0
  {
    hide Walk, WalkRows;
    if r != [] && !d.Choice? {
      assert (r + more)[1..] == r[1..] + more;
      if d.Container? && r[0].Hit? {
        WalkMore(d.defs, r[1..], more);
      } else if d.List? && r[0].Hit? {
        WalkRowsMore(d.defs, r[1..], more);
      }
    }
  }

  lemma {:induction false} WalkRowsMore(defs: seq<Def>, r: seq<Reply>, more: seq<Reply>)
    requires WalkRows(defs, r).Done?
    ensures WalkRows(defs, r + more) == Done(WalkRows(defs, r).value, WalkRows(defs, r).left + more)
    decreases |r|, defs, 2
  {
    hide Walk;
    if r != [] {
      assert (r + more)[1..] == r[1..] + more;
      if r[0].Hit? && r[0].message.PipeListItem? {
        WalkMore(defs, r[1..], more);
        WalkRowsMore(defs, Walk(defs, r[1..]).left, more);
      }
    }
  }

  /** An error in reply to what it wants ends the walk with that error. */
  lemma {:induction false} WalkMissed(defs: seq<Def>, r: seq<Reply>, e: string)
    requires Walk(defs, r).Wants?
    ensures Walk(defs, r + [Miss(Some(e))]) == Refused(e)
    decreases |r|, defs, 1
  {
    hide WalkOne;
    if WalkOne(defs[0], r).Wants? {
      WalkOneMissed(defs[0], r, e);
    } else {
      WalkOneMore(defs[0], r, [Miss(Some(e))]);
      WalkMissed(defs[1..], WalkOne(defs[0], r).left, e);
    }
  }

  lemma {:induction false} WalkOneMissed(d: Def, r: seq<Reply>, e: string)
    requires WalkOne(d, r).Wants?
    ensures WalkOne(d, r + [Miss(Some(e))]) == Refused(e)
    decreases |r|, d, 0
  {
    hide Walk, WalkRows;
    if r != [] {
      assert (r + [Miss(Some(e))])[1..] == r[1..] + [Miss(Some(e))];
      if d.Container? {
        WalkMissed(d.defs, r[1..], e);
      } else if d.List? {
        WalkRowsMissed(d.defs, r[1..], e);
      }
    }
  }

  lemma {:induction false} WalkRowsMissed(defs: seq<Def>, r: seq<Reply>, e: string)
    requires WalkRows(defs, r).Wants?
    ensures WalkRows(defs, r + [Miss(Some(e))]) == Refused(e)
    decreases |r|, defs, 2
  {
    hide Walk;
    if r != [] {
      assert (r + [Miss(Some(e))])[1..] == r[1..] + [Miss(Some(e))];
      if Walk(defs, r[1..]).Wants? {
        WalkMissed(defs, r[1..], e);
      } else {
        WalkMore(defs, r[1..], [Miss(Some(e))]);
        WalkRowsMissed(defs, Walk(defs, r[1..]).left, e);
      }
    }
  }

  /** No reply tells of an error. */
  ghost predicate Quiet(r: seq<Reply>) {
    forall i :: 0 <= i < |r| ==> r[i].Hit? || r[i].err.None?
  }

  /** Without one the walk is refused nothing, but for a choice. */
  lemma {:induction false} WalkQuiet(defs: seq<Def>, r: seq<Reply>)
    requires Quiet(r)
    ensures Walk(defs, r).Refused? ==> Walk(defs, r).err == NO_CHOOSE
    ensures Walk(defs, r).Done? ==> Quiet(Walk(defs, r).left)
    decreases |r|, defs, 1
  {
    if defs != [] {
      hide WalkOne, Quiet;
      WalkOneQuiet(defs[0], r);
      if WalkOne(defs[0], r).Done? {
        WalkQuiet(defs[1..], WalkOne(defs[0], r).left);
      }
    }
  }

  lemma {:induction false} WalkOneQuiet(d: Def, r: seq<Reply>)
    requires Quiet(r)
    ensures WalkOne(d, r).Refused? ==> WalkOne(d, r).err == NO_CHOOSE
    ensures WalkOne(d, r).Done? ==> Quiet(WalkOne(d, r).left)
    decreases |r|, d, 0
  {
    hide Walk, WalkRows;
    if r != [] {
      if d.Container? && r[0].Hit? {
        WalkQuiet(d.defs, r[1..]);
      } else if d.List? && r[0].Hit? {
        WalkRowsQuiet(d.defs, r[1..]);
      }
    }
  }

  lemma {:induction false} WalkRowsQuiet(defs: seq<Def>, r: seq<Reply>)
    requires Quiet(r)
    ensures WalkRows(defs, r).Refused? ==> WalkRows(defs, r).err == NO_CHOOSE
    ensures WalkRows(defs, r).Done? ==> Quiet(WalkRows(defs, r).left)
    decreases |r|, defs, 2
  {
    hide Walk;
    if r != [] && r[0].Hit? && r[0].message.PipeListItem? {
      WalkQuiet(defs, r[1..]);
      if Walk(defs, r[1..]).Done? {
        WalkRowsQuiet(defs, Walk(defs, r[1..]).left);
      }
    }
  }

  // ---------- in every interleaving ----------

  /** The walk has asked for something when all messages but the end had been consumed. */
  ghost predicate AsksBeyond(r: seq<Reply>, n: nat) {
    exists i :: 0 <= i < |r| && |Hits(r[..i])| == n
  }

  /**
    A pipe that is closed with an error after any messages: in every interleaving the walk ends with that error as soon
    as it asks for more, and is refused nothing before, but for a choice.
  */
  lemma ErrorReaches(defs: seq<Def>, sent: seq<Message>, e: string, ends: seq<Message>, run: seq<State>, n: nat)
    requires forall i :: 0 <= i < |sent| ==> !sent[i].PipeEnd?
    requires ends != [] && ends[0] == PipeEnd(Some(e)) && forall i :: 0 <= i < |ends| ==> ends[i].PipeEnd?
    requires Run(Reading(defs), sent + ends, run) && n < |run|
    ensures var r := run[n].replies;
            if AsksBeyond(r, |sent|) then Walk(defs, r) == Refused(e)
            else Walk(defs, r).Refused? ==> Walk(defs, r).err == NO_CHOOSE
  {
    hide *;
    var r := run[n].replies;
    LivePushed(sent, ends);
    EveryInterleaving(Reading(defs), sent + ends, run, n);
    HitsWithin(sent, ends, r, run[n].received, run[n].sent);
    if AsksBeyond(r, |sent|) {
      var i := AskedBeyond(r, |sent|);
      BeyondEnds(defs, sent + ends, r, i, e);
    } else {
      forall i | 0 <= i < |r| ensures r[i].Hit? || r[i].err.None? {
        NotBeyond(r, |sent|, i);
        HitsPrefix(r, i);
        WithinHits(Reading(defs), sent, ends, r, i);
      }
      QuietIs(r);
      WalkQuiet(defs, r);
    }
  }

  lemma QuietIs(r: seq<Reply>)
    requires forall i :: 0 <= i < |r| ==> r[i].Hit? || r[i].err.None?
    ensures Quiet(r)
  {
  }

  lemma HitsWithin(data: seq<Message>, ends: seq<Message>, r: seq<Reply>, received: seq<Message>, sent: nat)
    requires sent <= |data + ends| && Extends(Hits(r), received) && Extends(received, (data + ends)[..sent])
    requires forall i :: 0 <= i < |Hits(r)| ==> !Hits(r)[i].PipeEnd?
    requires forall i :: 0 <= i < |ends| ==> ends[i].PipeEnd?
    ensures |Hits(r)| <= |data|
  {
    hide Hits;
    var all := data + ends;
    if Hits(r) != [] {
      var last := |Hits(r)| - 1;
      assert Hits(r)[last] == received[last] == all[last];
      BehindData(data, ends, last);
    }
  }

  lemma BehindData(data: seq<Message>, ends: seq<Message>, i: nat)
    requires i < |data + ends| && forall k :: 0 <= k < |ends| ==> ends[k].PipeEnd?
    ensures i < |data| || (data + ends)[i].PipeEnd?
  {
  }

  lemma HitsPrefix(r: seq<Reply>, i: nat)
    requires i <= |r|
    ensures |Hits(r[..i])| <= |Hits(r)|
  {
    HitsAppend(r[..i], r[i..]);
    assert r == r[..i] + r[i..];
  }

  lemma AskedBeyond(r: seq<Reply>, n: nat) returns (i: nat)
    requires AsksBeyond(r, n)
    ensures i < |r| && |Hits(r[..i])| == n
  {
    i :| 0 <= i < |r| && |Hits(r[..i])| == n;
  }

  lemma NotBeyond(r: seq<Reply>, n: nat, i: nat)
    requires !AsksBeyond(r, n) && i < |r|
    ensures |Hits(r[..i])| != n
  {
  }

  /** The reply to an ask beyond is the error, after which the walk asks no more. */
  lemma BeyondEnds(defs: seq<Def>, script: seq<Message>, r: seq<Reply>, i: nat, e: string)
    requires forall k :: 0 <= k < |r| ==> Answered(Reading(defs), script, r, k)
    requires i < |r| && |Hits(r[..i])| < |script| && script[|Hits(r[..i])|] == PipeEnd(Some(e))
    ensures Walk(defs, r) == Refused(e)
  {
    hide Walk, Hits;
    assert Answered(Reading(defs), script, r, i);
    ReadingWants(defs, r[..i]);
    WalkMissed(defs, r[..i], e);
    assert r[..i + 1] == r[..i] + [Miss(Some(e))];
    if i + 1 < |r| {
      assert Answered(Reading(defs), script, r, i + 1);
      ReadingWants(defs, r[..i + 1]);
    }
    assert r[..|r|] == r;
  }

  lemma WithinHits(reader: Reader, sent: seq<Message>, ends: seq<Message>, r: seq<Reply>, i: nat)
    requires i < |r| && Answered(reader, sent + ends, r, i) && |Hits(r[..i])| < |sent|
    requires forall k :: 0 <= k < |sent| ==> !sent[k].PipeEnd?
    ensures r[i].Hit? || r[i].err.None?
  {
    hide Hits, Matches;
  }

  // ---------- data cut short, in every interleaving ----------

  /** The walk never takes data cut short by an error for a tree: while it does not want more it has that error. */
  lemma CutIsRefused(defs: seq<Def>, t: Data, created: bool, k: nat, e: string, ends: seq<Message>, run: seq<State>,
                     n: nat)
    requires Clear(defs, created, {}) && k < |Pushed(defs, t, created)|
    requires ends != [] && ends[0] == PipeEnd(Some(e)) && forall i :: 0 <= i < |ends| ==> ends[i].PipeEnd?
    requires Run(Reading(defs), Pushed(defs, t, created)[..k] + ends, run) && n < |run|
    ensures match Walk(defs, run[n].replies)
            case Wants(_) => true
            case Done(_, _) => false
            case Refused(err) => err == e
  {
    hide *;
    var sent, r := Pushed(defs, t, created)[..k], run[n].replies;
    var all := Pushed(defs, t, created) + [PipeEnd(None)];
    PushedGoesOn(defs, t, created);
    ErrorReaches(defs, sent, e, ends, run, n);
    if !AsksBeyond(r, |sent|) {
      LivePushed(sent, ends);
      EveryInterleaving(Reading(defs), sent + ends, run, n);
      HitsWithin(sent, ends, r, run[n].received, run[n].sent);
      SameAlone(Reading(defs), sent, ends, all, r, |r|);
      EndComes();
      PullPushed(defs, t, created, {}, [PipeEnd(None)]);
      AloneReadsLog(defs, all, |r|);
      LogAhead(defs, all);
      AheadIs(all, Log(defs, all), [PipeEnd(None)]);
      FirstAll(Log(defs, all), |r|);
      assert r[..|r|] == r;
      if |r| < |Log(defs, all)| {
        WalkAsks(defs, all, |r|);
        AskingWants(Walk(defs, First(Log(defs, all), |r|)), Log(defs, all), all, |r|);
      }
    }
  }

  lemma EndComes()
    ensures Ended([PipeEnd(None)]) && Comes(PipeEnd(None), {})
  {
  }

  lemma AheadIs(s: seq<Message>, log: seq<Reply>, rest: seq<Message>)
    requires Ahead(s, log, rest)
    ensures |Hits(log)| + |rest| == |s|
  {
  }

  /** Replies that come from messages of the beginning are those of a reader for which all messages lie ready. */
  lemma {:induction false} SameAlone(reader: Reader, sent: seq<Message>, ends: seq<Message>, all: seq<Message>,
                                     r: seq<Reply>, n: nat)
    requires |sent| < |all| && sent <= all && (forall k :: 0 <= k < |sent| ==> !sent[k].PipeEnd?)
    requires n <= |r| && forall i :: 0 <= i < |r| ==> Answered(reader, sent + ends, r, i)
    requires !AsksBeyond(r, |sent|) && |Hits(r)| <= |sent|
    ensures Alone(reader, all, n) == r[..n]
    decreases n
  {
    if n > 0 {
      var m := n - 1;
      SameAlone(reader, sent, ends, all, r, m);
      NotBeyond(r, |sent|, m);
      HitsPrefix(r, m);
      assert Answered(reader, sent + ends, r, m);
      var h := |Hits(r[..m])|;
      assert (sent + ends)[h] == sent[h] == all[h];
      assert r[..n] == r[..m] + [r[m]];
      hide Hits, Matches, AsksBeyond;
    }
  }
}
