/**
  The JSON writer (nodeutil/json_wtr.go): nodes that an insert writes a tree into, each with a flag that says whether
  its next member is the first one, and all with the same output.
*/
module JsonWriter {
  import opened Wrappers
  import opened DataSchema
  import opened MetaIterator
  import opened DataTree
  import opened JsonText

  class Output {
    var tokens: seq<Token>

    constructor ()
      ensures tokens == []
    {
      tokens := [];
    }

    method Put(t: Token)
      modifies this
      ensures tokens == old(tokens) + [t]
    {
      tokens := tokens + [t];
    }
  }

  class Container {
    const out: Output
    var first: bool

    constructor (out: Output)
      ensures this.out == out && first
    {
      this.out, first := out, true;
    }

    method Delim()
      modifies this, out
      ensures !first && out.tokens == old(out.tokens) + if old(first) then [] else [Comma]
    {
      if !first {
        out.Put(Comma);
      } else {
        first := false;
      }
    }

    method OnChild(d: Def) returns (child: Container)
      modifies this, out
      ensures !first && fresh(child) && child.first && child.out == out
      ensures out.tokens == old(out.tokens) + (if old(first) then [] else [Comma])
                            + [Named(d.ident), if d.List? then OpenList else Open]
    {
      Delim();
      out.Put(Named(d.ident));
      if d.List? {
        out.Put(OpenList);
      } else {
        out.Put(Open);
      }
      child := new Container(out);
    }

    method OnField(ident: string, value: Value)
      modifies this, out
      ensures !first
      ensures out.tokens == old(out.tokens) + (if old(first) then [] else [Comma]) + [Named(ident), Quoted(value)]
    {
      Delim();
      out.Put(Named(ident));
      out.Put(Quoted(value));
    }

    method OnNext() returns (item: Container)
      modifies this, out
      ensures !first && fresh(item) && item.first && item.out == out
      ensures out.tokens == old(out.tokens) + (if old(first) then [] else [Comma]) + [Open]
    {
      Delim();
      out.Put(Open);
      item := new Container(out);
    }

    method OnEndEdit(list: bool)
      modifies out
      ensures out.tokens == old(out.tokens) + [if list then CloseList else Close]
    {
      if list {
        out.Put(CloseList);
      } else {
        out.Put(Close);
      }
    }

    /**
      The definitions of a container or list item, those of chosen cases included, written by the walk of an insert.
    */
    method Insert(defs: seq<Def>, t: Data, created: bool)
      modifies this, out
      ensures out.tokens == old(out.tokens) + Members(JsonOf(defs, t, created), old(first))
      decreases t, 3
    {
      var ml := new ContainerMetaList(Outline(NamesIn(t)), defs, None);
      InsertWalk(ml, Visited(defs, t), t, created);
    }

    method InsertWalk(ml: ContainerMetaList, ghost items: seq<Item>, t: Data, created: bool)
      requires ml.Valid() && ml.Rest == items
      modifies this, out, ml.Repr
      ensures out.tokens == old(out.tokens) + Members(JsonItems(items, t, created), old(first))
      decreases t, 2
    {
      hide *;
      MembersStart(out.tokens, JsonItems(items, t, created), first);
      assert items[0..] == items;
      ghost var n := 0;
      var m := ml.NextOf(items, 0);
      while m.Some?
        invariant ml.At(items, n, m) && fresh(ml.Repr - old(ml.Repr)) && n <= |items|
        invariant ToWrite(out.tokens, JsonItems(items[n..], t, created), first)
               == old(out.tokens) + Members(JsonItems(items, t, created), old(first))
        decreases |items| - n
      {
        ml.AtItem(items, n, m);
        InsertNext(out.tokens, items, n, t, created, first);
        InsertOne(m.value.def, t, created);
        n := n + 1;
        m := ml.NextOf(items, n);
      }
      ml.AtEnd(items, n, m);
      InsertEnd(out.tokens, items, t, created, first);
    }

    method InsertOne(d: Def, t: Data, created: bool)
      modifies this, out
      ensures out.tokens == old(out.tokens) + Members(JsonOne(d, t, created), old(first))
      ensures first == (old(first) && JsonOne(d, t, created) == [])
      decreases t, 1
    {
      OneMember(d, t, created, first);
      hide JsonOf, JsonRows, Members, Items;
      match d
      case Leaf(id, _) =>
        var v := ValueOf(d, t, created);
        if v.Some? {
          OnField(id, v.value);
        }
      case Container(id, defs) =>
        if HasSub(t, id) {
          InsertChild(d, t, t.subs[id]);
        }
      case List(id, defs) =>
        if HasSub(t, id) {
          InsertChild(d, t, t.subs[id]);
        }
      case Choice(_, _) =>
    }

    /** A container or list that the source holds. */
    method InsertChild(d: Def, ghost t: Data, sub: Data)
      requires (d.Container? || d.List?) && HasSub(t, d.ident) && sub == t.subs[d.ident]
      modifies this, out
      ensures !first
      ensures out.tokens == old(out.tokens) + (if old(first) then [] else [Comma])
                            + (if d.List? then [Named(d.ident), OpenList] + Items(JsonRows(d.defs, sub, 0), true)
                               + [CloseList]
                               else [Named(d.ident), Open] + Members(JsonOf(d.defs, sub, true), true) + [Close])
      decreases t, 0
    {
      assert sub < t;
      hide JsonOf, JsonRows, Members, Items;
      var child := OnChild(d);
      if d.List? {
        child.InsertRows(d.defs, sub);
        child.OnEndEdit(true);
      } else {
        child.Insert(d.defs, sub, true);
        child.OnEndEdit(false);
      }
    }

    method InsertRows(defs: seq<Def>, t: Data)
      modifies this, out
      ensures out.tokens == old(out.tokens) + Items(JsonRows(defs, t, 0), old(first))
      decreases t, 2
    {
      ghost var rows := JsonRows(defs, t, 0);
      RowsStart(out.tokens, rows, first);
      hide JsonRows, Items, RowsToWrite;
      var i := 0;
      while i < RowCount(t)
        invariant i <= RowCount(t)
        invariant RowsToWrite(out.tokens, JsonRows(defs, t, i), first) == old(out.tokens) + Items(rows, old(first))
      {
        RowsNext(out.tokens, defs, t, i, first);
        var item := OnNext();
        item.Insert(defs, t.rows[i].data, true);
        item.OnEndEdit(false);
        i := i + 1;
      }
      RowsEnd(out.tokens, defs, t, first);
    }
  }

  // ---------- one member after the other ----------

  ghost function ToWrite(tokens: seq<Token>, ms: seq<Member>, first: bool): seq<Token> {
    tokens + Members(ms, first)
  }

  lemma MembersStart(tokens: seq<Token>, ms: seq<Member>, first: bool)
    ensures ToWrite(tokens, ms, first) == tokens + Members(ms, first)
  {
  }

  lemma InsertNext(tokens: seq<Token>, items: seq<Item>, n: nat, t: Data, created: bool, first: bool)
    requires n < |items|
    ensures var one := JsonOne(items[n].def, t, created);
            (ToWrite(tokens, JsonItems(items[n..], t, created), first)
             == ToWrite(tokens + Members(one, first), JsonItems(items[n + 1..], t, created), first && one == []))
  {
    assert items[n..][0] == items[n] && items[n..][1..] == items[n + 1..];
    MembersFirst(tokens, JsonOne(items[n].def, t, created), JsonItems(items[n + 1..], t, created), first);
  }

  lemma MembersFirst(tokens: seq<Token>, one: seq<Member>, ms: seq<Member>, first: bool)
    requires |one| <= 1
    ensures tokens + Members(one + ms, first) == tokens + Members(one, first) + Members(ms, first && one == [])
  {
    if one == [] {
      assert one + ms == ms && tokens + [] == tokens;
    } else {
      assert (one + ms)[1..] == ms && one[1..] == [];
      var named := [Named(one[0].ident)];
      assert Members(one, first) == (if first then [] else [Comma]) + (named + (Print(one[0].value) + []));
    }
  }

  lemma InsertEnd(tokens: seq<Token>, items: seq<Item>, t: Data, created: bool, first: bool)
    ensures ToWrite(tokens, JsonItems(items[|items|..], t, created), first) == tokens
  {
  }

  lemma OneMember(d: Def, t: Data, created: bool, first: bool)
    ensures var comma := if first then [] else [Comma];
            (Members(JsonOne(d, t, created), first)
             == match d
                case Leaf(id, _) =>
                  var v := ValueOf(d, t, created); (if v.Some? then comma + [Named(id), Quoted(v.value)] else [])
                case Container(id, defs) =>
                  if HasSub(t, id) then
                    comma + ([Named(id), Open] + Members(JsonOf(defs, t.subs[id], true), true) + [Close])
                  else []
                case List(id, defs) =>
                  if HasSub(t, id) then
                    comma + ([Named(id), OpenList] + Items(JsonRows(defs, t.subs[id], 0), true) + [CloseList])
                  else []
                case Choice(_, _) => [])
  {
    hide JsonOf, JsonRows;
    var one := JsonOne(d, t, created);
    if one != [] {
      assert one[1..] == [];
      assert Print(one[0].value) + Members([], false) == Print(one[0].value);
    }
  }

  ghost function RowsToWrite(tokens: seq<Token>, items: seq<Json>, first: bool): seq<Token> {
    tokens + Items(items, first)
  }

  lemma RowsStart(tokens: seq<Token>, items: seq<Json>, first: bool)
    ensures RowsToWrite(tokens, items, first) == tokens + Items(items, first)
  {
  }

  lemma RowsNext(tokens: seq<Token>, defs: seq<Def>, t: Data, i: nat, first: bool)
    requires i < RowCount(t)
    ensures var comma := if first then [] else [Comma];
            (RowsToWrite(tokens, JsonRows(defs, t, i), first)
             == RowsToWrite(tokens + comma + [Open] + Members(JsonOf(defs, t.rows[i].data, true), true) + [Close],
                            JsonRows(defs, t, i + 1), false))
  {
    hide JsonOf;
    var items := JsonRows(defs, t, i);
    assert items[1..] == JsonRows(defs, t, i + 1);
    assert Print(items[0]) == [Open] + (Members(JsonOf(defs, t.rows[i].data, true), true) + [Close]);
  }

  lemma RowsEnd(tokens: seq<Token>, defs: seq<Def>, t: Data, first: bool)
    ensures RowsToWrite(tokens, JsonRows(defs, t, RowCount(t)), first) == tokens
  {
  }

  // ---------- the whole text ----------

  /** Writes a container or list item, between the BeginEdit and EndEdit of the writer's root node. */
  method WriteContainer(out: Output, defs: seq<Def>, t: Data)
    modifies out
    ensures out.tokens == old(out.tokens) + Print(Object(JsonOf(defs, t, false)))
  {
    hide JsonOf, Members;
    var root := new Container(out);
    out.Put(Open);
    root.Insert(defs, t, false);
    out.Put(Close);
  }

  /** Writes a list: an object that holds nothing else. */
  method WriteList(out: Output, ident: string, defs: seq<Def>, t: Data)
    modifies out
    ensures out.tokens == old(out.tokens) + Print(Object([Member(ident, Array(JsonRows(defs, t, 0)))]))
  {
    hide *;
    ListText(ident, JsonRows(defs, t, 0));
    var root := new Container(out);
    out.Put(Open);
    out.Put(Named(ident));
    out.Put(OpenList);
    ghost var start := out.tokens;
    root.InsertRows(defs, t);
    assert out.tokens == start + Items(JsonRows(defs, t, 0), true);
    out.Put(CloseList);
    out.Put(Close);
  }

  lemma ListText(ident: string, items: seq<Json>)
    ensures Print(Object([Member(ident, Array(items))]))
            == [Open, Named(ident), OpenList] + Items(items, true) + [CloseList, Close]
  {
    var ms := [Member(ident, Array(items))];
    assert ms[1..] == [];
    assert Members(ms, true) == [] + ([Named(ident)] + (Print(Array(items)) + []));
  }
}
