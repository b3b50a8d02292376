/** The two nodes of the pipe, changed in place: the reader's `position` and the writer's sends. */
module PipeNodes {
  import opened Wrappers
  import opened DataSchema
  import opened MetaIterator
  import opened DataTree
  import opened Pipe

  datatype Outcome<T> = Fine(value: T) | Fails(err: string)

  ghost predicate Agrees<T>(o: Outcome<T>, r: Read<T>, ahead: seq<Message>) {
    match r
    case Got(v, rest) => o == Fine(v) && ahead == rest
    case Failed(e) => o == Fails(e)
  }

  /** What is read after some of it has been read already. */
  ghost function After(read: Data, r: Read<Data>): Read<Data>
    requires read.Obj? && (r.Got? ==> r.value.Obj?)
  {
    match r
    case Got(v, rest) => Got(Join(read, v), rest)
    case Failed(e) => Failed(e)
  }

  ghost function AfterRows(read: seq<Row>, r: Read<seq<Row>>): Read<seq<Row>> {
    match r
    case Got(v, rest) => Got(read + v, rest)
    case Failed(e) => Failed(e)
  }

  lemma AfterNothing(r: Read<Data>, rows: Read<seq<Row>>)
    requires r.Got? ==> r.value.Obj?
    ensures After(NOTHING, r) == r && AfterRows([], rows) == rows
  {
    if rows.Got? {
      assert [] + rows.value == rows.value;
    }
    if r.Got? {
      assert map[] + r.value.leafs == r.value.leafs && map[] + r.value.subs == r.value.subs;
    }
  }

  lemma AfterOne(read: Data, defs: seq<Def>, i: nat, s: seq<Message>)
    requires read.Obj? && i < |defs| && !SeesChoice(defs[i..]) && Ended(s)
    ensures PulledOne(defs[i], s).Got? ==>
              var one := PulledOne(defs[i], s);
              After(read, Pulled(defs[i..], s)) == After(Join(read, one.value), Pulled(defs[i + 1..], one.rest))
    ensures PulledOne(defs[i], s).Failed? ==> After(read, Pulled(defs[i..], s)) == Failed(PulledOne(defs[i], s).err)
  {
    assert defs[i..][0] == defs[i] && defs[i..][1..] == defs[i + 1..];
    if PulledOne(defs[i], s).Got? && Pulled(defs[i + 1..], PulledOne(defs[i], s).rest).Got? {
      JoinAssociates(read, PulledOne(defs[i], s).value, Pulled(defs[i + 1..], PulledOne(defs[i], s).rest).value);
    }
    hide PulledOne, Join, Ended;
  }

  lemma JoinAssociates(a: Data, b: Data, c: Data)
    requires a.Obj? && b.Obj? && c.Obj?
    ensures Join(Join(a, b), c) == Join(a, Join(b, c))
  {
    assert a.leafs + b.leafs + c.leafs == a.leafs + (b.leafs + c.leafs);
    assert a.subs + b.subs + c.subs == a.subs + (b.subs + c.subs);
  }

  lemma AfterNone(read: Data, defs: seq<Def>, s: seq<Message>)
    requires read.Obj? && Ended(s)
    ensures After(read, Pulled(defs[|defs|..], s)) == Got(read, s)
  {
    assert read.leafs + map[] == read.leafs && read.subs + map[] == read.subs;
  }

  lemma AfterRow(read: seq<Row>, defs: seq<Def>, s: seq<Message>)
    requires Ended(s) && s[0].PipeListItem?
    ensures Ended(s[1..])
    ensures Pulled(defs, s[1..]).Got? ==>
              var row := Pulled(defs, s[1..]);
              AfterRows(read, PulledRows(defs, s))
                == AfterRows(read + [Row(s[0].key, row.value)], PulledRows(defs, row.rest))
    ensures Pulled(defs, s[1..]).Failed? ==> AfterRows(read, PulledRows(defs, s)) == Failed(Pulled(defs, s[1..]).err)
  {
    hide Pulled;
    if Pulled(defs, s[1..]).Got? && PulledRows(defs, Pulled(defs, s[1..]).rest).Got? {
      var rows := PulledRows(defs, Pulled(defs, s[1..]).rest).value;
      var row := [Row(s[0].key, Pulled(defs, s[1..]).value)];
      assert read + row + rows == read + (row + rows);
    }
  }

  lemma AfterLastRow(read: seq<Row>, defs: seq<Def>, s: seq<Message>)
    requires Ended(s) && !s[0].PipeListItem?
    ensures AfterRows(read, PulledRows(defs, s)) == if ErrorOf(s[0]).Some? then Failed(ErrorOf(s[0]).value)
            else Got(read, s)
  {
    assert read + [] == read;
  }

  class PullNode {
    var position: Option<Message>
    var messages: seq<Message>  // what the channel has yet to bring
    var closed: bool

    ghost function Ahead(): seq<Message>
      reads this
    {
      (if position.Some? then [position.value] else []) + messages
    }

    ghost predicate Valid()
      reads this
    {
      Ended(Ahead()) && (closed <==> messages == [])
    }

    /**
      If the end has been received meanwhile and carries an error, that is what is reported; and no other error is, but
      for a choice.
    */
    ghost predicate Tells<T(!new)>(o: Outcome<T>, wasClosed: bool)
      reads this
      requires Valid()
    {
      && (closed ==> Ahead()[0].PipeEnd?)
      && (closed && !wasClosed && Ahead()[0].err.Some? ==> o == Fails(Ahead()[0].err.value))
      && (o.Fails? ==> o.err == NO_CHOOSE || (closed && Ahead()[0].err == Some(o.err)))
    }

    lemma EndHeld()
      requires Valid()
      ensures Tells(Fine(NOTHING), closed)
    {
      assert closed ==> Ahead()[|Ahead()| - 1] == Ahead()[0];
    }

    constructor (messages: seq<Message>)
      requires Ended(messages)
      ensures Valid() && Ahead() == messages
    {
      this.messages, position, closed := messages, None, false;
    }

    method Peek() returns (m: Message)
      requires Valid()
      modifies this
      ensures Valid() && Ahead() == old(Ahead()) && position == Some(m) && m == Ahead()[0]
      ensures closed <==> m.PipeEnd?
    {
      if position.None? {
        ghost var before := messages;
        position, messages := Some(messages[0]), messages[1..];
        assert old(Ahead()) == before == Ahead();
        if position.value.PipeEnd? {
          closed := true;
        }
      }
      m := position.value;
      assert Ahead()[1..] == messages;
      assert Ahead()[|Ahead()| - 1].PipeEnd?;
    }

    method Consume()
      requires Valid() && position.Some? && !position.value.PipeEnd?
      modifies this
      ensures Valid() && old(Ahead()) == [old(position.value)] + Ahead() && position == None && closed == old(closed)
    {
      ghost var before := Ahead();
      position := None;
      assert Ahead() == before[1..];
    }

    /** The reply of OnChild, OnNext or OnField. */
    method Reply(a: Ask) returns (r: Reply)
      requires Valid()
      modifies this
      ensures Valid() && r == ReplyTo(a, old(Ahead())[0])
      ensures match old(Ahead())[0]
              case PipeEnd(err) => r == Miss(err) && closed
              case m => !closed && r == if Matches(a, m) then Hit(m) else Miss(None)
      ensures Ahead() == if r.Hit? then old(Ahead())[1..] else old(Ahead())
      ensures old(closed) ==> closed && r.Miss?
    {
      var m := Peek();
      if !Matches(a, m) {
        return Miss(ErrorOf(m));
      }
      Consume();
      assert old(Ahead())[1..] == Ahead();
      r := Hit(m);
    }

    /** Reads a container or list item. */
    method ReadObject(defs: seq<Def>) returns (o: Outcome<Data>)
      requires Valid()
      modifies this
      ensures Valid() && Agrees(o, Pulled(defs, old(Ahead())), Ahead()) && Tells(o, old(closed))
      ensures old(closed) ==> closed && Ahead() == old(Ahead())
      decreases |Ahead()|, defs, 1
    {
      EndHeld();
      hide Pulled, PulledOne, After, Ended, GotFrom, Matches, SeesChoice, Join, ReplyTo, ErrorOf;
      GotFromStart(defs, Ahead());
      var read := NOTHING;
      var i := 0;
      while i < |defs|
        invariant i <= |defs| && Valid() && read.Obj? && |Ahead()| <= |old(Ahead())|
        invariant Tells(Fine(read), old(closed)) && (old(closed) ==> closed && Ahead() == old(Ahead()))
        invariant GotFrom(read, defs, i, Ahead()) == Pulled(defs, old(Ahead()))
      {
        GotFromNext(read, defs, i, Ahead());
        if SeesChoice(defs[i..]) {
          return Fails(NO_CHOOSE);
        }
        var one := ReadOne(defs[i]);
        if one.Fails? {
          return one;
        }
        assert one.Fine?;
        read := Join(read, one.value);
        i := i + 1;
      }
      GotFromEnd(read, defs, Ahead());
      o := Fine(read);
    }

    method ReadOne(d: Def) returns (o: Outcome<Data>)
      requires Valid()
      modifies this
      ensures Valid() && Agrees(o, PulledOne(d, old(Ahead())), Ahead()) && Tells(o, old(closed))
              && (o.Fine? ==> o.value.Obj? && |Ahead()| <= |old(Ahead())|)
      ensures old(closed) ==> closed && Ahead() == old(Ahead())
      decreases |Ahead()|, d, 0
    {
      hide Pulled, PulledRows;
      match d
      case Leaf(id, _) =>
        var r := Reply(Field(id));
        if r.Miss? {
          return if r.err.Some? then Fails(r.err.value) else Fine(NOTHING);
        }
        o := Fine(Obj(map[id := r.message.value], map[]));
      case Container(id, defs) =>
        var r := Reply(Child(id));
        if r.Miss? {
          return if r.err.Some? then Fails(r.err.value) else Fine(NOTHING);
        }
        var sub := ReadObject(defs);
        o := if sub.Fine? then Fine(Obj(map[], map[id := sub.value])) else sub;
      case List(id, defs) =>
        var r := Reply(Child(id));
        if r.Miss? {
          return if r.err.Some? then Fails(r.err.value) else Fine(NOTHING);
        }
        var rows := ReadRows(defs);
        o := if rows.Fine? then Fine(Obj(map[], map[id := Rows(rows.value)])) else Fails(rows.err);
      case Choice(_, _) =>
        o := Fails(NO_CHOOSE);
    }

    method ReadRows(defs: seq<Def>) returns (o: Outcome<seq<Row>>)
      requires Valid()
      modifies this
      ensures Valid() && Agrees(o, PulledRows(defs, old(Ahead())), Ahead()) && Tells(o, old(closed))
      ensures old(closed) ==> closed && Ahead() == old(Ahead())
      decreases |Ahead()|, defs, 2
    {
      AfterNothing(Got(NOTHING, []), PulledRows(defs, Ahead()));
      hide Pulled, PulledRows, AfterRows, ReplyTo, Matches;
      var read: seq<Row> := [];
      ghost var s := Ahead();
      var r := Reply(Next);
      NextReply(s[0]);
      while r.Hit?
        invariant Valid() && Ended(s) && |s| <= |old(Ahead())|
        invariant old(closed) ==> closed && Ahead() == old(Ahead())
        invariant Tells(if r.Miss? && r.err.Some? then Fails(r.err.value) else Fine(read), old(closed))
        invariant r == ReplyTo(Next, s[0]) && Ahead() == (if r.Hit? then s[1..] else s) && (r.Hit? ==> !closed)
        invariant if r.Hit? then s[0].PipeListItem? && r.message == s[0]
                  else !s[0].PipeListItem? && r.err == ErrorOf(s[0])
        invariant AfterRows(read, PulledRows(defs, s)) == PulledRows(defs, old(Ahead()))
        decreases |s|
      {
        AfterRow(read, defs, s);
        var row := ReadObject(defs);
        if row.Fails? {
          return Fails(row.err);
        }
        read := read + [Row(r.message.key, row.value)];
        s := Ahead();
        r := Reply(Next);
        NextReply(s[0]);
      }
      AfterLastRow(read, defs, s);
      o := if r.err.Some? then Fails(r.err.value) else Fine(read);
    }
  }

  lemma NextReply(m: Message)
    ensures var r := ReplyTo(Next, m);
            if r.Hit? then m.PipeListItem? && r.message == m else !m.PipeListItem? && r.err == ErrorOf(m)
  {
  }

  ghost function GotFrom(read: Data, defs: seq<Def>, i: nat, s: seq<Message>): Read<Data>
    requires read.Obj? && i <= |defs| && Ended(s)
  {
    After(read, Pulled(defs[i..], s))
  }

  lemma GotFromStart(defs: seq<Def>, s: seq<Message>)
    requires Ended(s)
    ensures GotFrom(NOTHING, defs, 0, s) == Pulled(defs, s)
  {
    assert defs[0..] == defs;
    AfterNothing(Pulled(defs, s), Got([], []));
  }

  lemma GotFromNext(read: Data, defs: seq<Def>, i: nat, s: seq<Message>)
    requires read.Obj? && i < |defs| && Ended(s)
    ensures SeesChoice(defs[i..]) ==> GotFrom(read, defs, i, s) == Failed(NO_CHOOSE)
    ensures !SeesChoice(defs[i..]) ==>
              match PulledOne(defs[i], s)
              case Got(one, rest) => GotFrom(read, defs, i, s) == GotFrom(Join(read, one), defs, i + 1, rest)
              case Failed(e) => GotFrom(read, defs, i, s) == Failed(e)
  {
    if !SeesChoice(defs[i..]) {
      AfterOne(read, defs, i, s);
    }
  }

  lemma GotFromEnd(read: Data, defs: seq<Def>, s: seq<Message>)
    requires read.Obj? && Ended(s)
    ensures GotFrom(read, defs, |defs|, s) == Got(read, s)
  {
    AfterNone(read, defs, s);
  }

  class PushNode {
    var sent: seq<Message>

    constructor ()
      ensures sent == []
    {
      sent := [];
    }

    /** Writes a container or list item into the pipe. */
    method WriteObject(defs: seq<Def>, t: Data, created: bool)
      modifies this
      ensures sent == old(sent) + Pushed(defs, t, created)
      decreases t, 2
    {
      hide *;
      ghost var items, n := Visited(defs, t), 0;
      PushedStart(items, defs, t, created);
      var ml := new ContainerMetaList(Outline(NamesIn(t)), defs, None);
      var m := ml.NextOf(items, 0);
      while m.Some?
        invariant ml.At(items, n, m) && fresh(ml.Repr) && n <= |items|
        invariant sent + PushedItems(items[n..], t, created) == old(sent) + Pushed(defs, t, created)
        decreases |items| - n
      {
        ml.AtItem(items, n, m);
        PushedNext(sent, items, n, t, created);
        WriteOne(m.value.def, t, created);
        n := n + 1;
        m := ml.NextOf(items, n);
      }
      ml.AtEnd(items, n, m);
      PushedEnd(items, t, created);
    }

    method WriteOne(d: Def, t: Data, created: bool)
      modifies this
      ensures sent == old(sent) + PushedOne(d, t, created)
      decreases t, 1
    {
      hide Pushed, PushedRows;
      match d
      case Leaf(id, _) =>
        var v := ValueOf(d, t, created);
        if v.Some? {
          sent := sent + [PipeLeaf(id, v.value)];
        }
      case Container(id, defs) =>
        if HasSub(t, id) {
          sent := sent + [PipeSelect(id)];
          WriteObject(defs, t.subs[id], true);
        }
      case List(id, defs) =>
        if HasSub(t, id) {
          sent := sent + [PipeSelect(id)];
          WriteRows(id, defs, t.subs[id]);
        }
      case Choice(_, _) =>
    }

    method WriteRows(ident: string, defs: seq<Def>, t: Data)
      modifies this
      ensures sent == old(sent) + PushedRows(ident, defs, t, 0)
      decreases t, 3
    {
      var i := 0;
      while i < RowCount(t)
        invariant i <= RowCount(t)
        invariant sent + PushedRows(ident, defs, t, i) == old(sent) + PushedRows(ident, defs, t, 0)
      {
        PushedRowNext(sent, ident, defs, t, i);
        sent := sent + [PipeListItem(ident, t.rows[i].key)];
        WriteObject(defs, t.rows[i].data, true);
        i := i + 1;
      }
    }
  }

  lemma PushedStart(items: seq<Item>, defs: seq<Def>, t: Data, created: bool)
    requires items == Visited(defs, t)
    ensures items[0..] == items == Active(defs, Outline(NamesIn(t)), None)
    ensures Pushed(defs, t, created) == PushedItems(items, t, created)
  {
  }

  lemma PushedNext(sent: seq<Message>, items: seq<Item>, n: nat, t: Data, created: bool)
    requires n < |items|
    ensures (sent + PushedItems(items[n..], t, created)
             == sent + PushedOne(items[n].def, t, created) + PushedItems(items[n + 1..], t, created))
  {
    assert items[n..][0] == items[n] && items[n..][1..] == items[n + 1..];
  }

  lemma PushedEnd(items: seq<Item>, t: Data, created: bool)
    ensures PushedItems(items[|items|..], t, created) == []
  {
  }

  lemma PushedRowNext(sent: seq<Message>, ident: string, defs: seq<Def>, t: Data, i: nat)
    requires i < RowCount(t)
    ensures sent + PushedRows(ident, defs, t, i)
         == sent + [PipeListItem(ident, t.rows[i].key)] + Pushed(defs, t.rows[i].data, true)
           + PushedRows(ident, defs, t, i + 1)
  {
  }
}
