/** Data with its lists in order, as sources that are read from front to back hold it. */
module DataTree {
  import opened Wrappers
  import opened DataSchema
  import opened SchemaNames

  datatype Data =
    | Obj(leafs: map<string, Value>, subs: map<string, Data>)
    | Rows(rows: seq<Row>)

  datatype Row = Row(key: string, data: Data)

  const NOTHING := Obj(map[], map[])

  function Leafs(t: Data): map<string, Value> {
    if t.Obj? then t.leafs else map[]
  }

  function RowCount(t: Data): nat {
    if t.Rows? then |t.rows| else 0
  }

  predicate HasSub(t: Data, ident: string) {
    t.Obj? && ident in t.subs
  }

  /** The value a leaf has for a reader that fills in defaults if `created`. */
  function ValueOf(d: Def, t: Data, created: bool): Option<Value>
    requires d.Leaf?
  {
    if d.ident in Leafs(t) then Some(Leafs(t)[d.ident]) else if created then d.default else None
  }

  function Join(a: Data, b: Data): Data
    requires a.Obj? && b.Obj?
  {
    Obj(a.leafs + b.leafs, a.subs + b.subs)
  }

  // ---------- what a walk along the schema sees of some data ----------

  function NamesIn(t: Data): set<string> {
    if t.Obj? then t.leafs.Keys + t.subs.Keys else {}
  }

  /** A tree that holds something under each name, which is all that choosing a case asks. */
  function Outline(names: set<string>): (t: Tree)
    ensures forall n :: Populated(t, n) <==> n in names
  {
    Tree(map n | n in names :: "", map[])
  }

  /** The definitions the walk visits, those of chosen cases included. */
  ghost function Visited(defs: seq<Def>, t: Data): seq<Item> {
    Active(defs, Outline(NamesIn(t)), None)
  }

  ghost function Seen(defs: seq<Def>, t: Data, created: bool): (r: Data)
    ensures r.Obj?
    decreases t, 2, 0
  {
    SeenItems(Visited(defs, t), t, created)
  }

  ghost function SeenItems(items: seq<Item>, t: Data, created: bool): (r: Data)
    ensures r.Obj?
    decreases t, 1, |items|
  {
    if items == [] then NOTHING else Join(SeenOne(items[0].def, t, created), SeenItems(items[1..], t, created))
  }

  ghost function SeenOne(d: Def, t: Data, created: bool): (r: Data)
    ensures r.Obj?
    decreases t, 0, 0
  {
    match d
    case Leaf(id, _) =>
      var v := ValueOf(d, t, created);
      if v.Some? then Obj(map[id := v.value], map[]) else NOTHING
    case Container(id, defs) => if HasSub(t, id) then Obj(map[], map[id := Seen(defs, t.subs[id], true)]) else NOTHING
    case List(id, defs) =>
      if HasSub(t, id) then Obj(map[], map[id := Rows(SeenRows(defs, t.subs[id], 0))]) else NOTHING
    case Choice(_, _) => NOTHING
  }

  ghost function SeenRows(defs: seq<Def>, t: Data, i: nat): (r: seq<Row>)
    requires i <= RowCount(t)
    decreases t, 0, RowCount(t) - i
  {
    if i == RowCount(t) then [] else
      [Row(t.rows[i].key, Seen(defs, t.rows[i].data, true))] + SeenRows(defs, t, i + 1)
  }

  /**
    Of a definition that is no choice it depends neither on other definitions nor on the data whether it is visited.
  */
  lemma VisitedFirst(defs: seq<Def>, t: Data, created: bool)
    ensures defs == [] ==> Visited(defs, t) == []
    ensures defs != [] && !defs[0].Choice? ==>
              && Visited(defs, t) == [Item(defs[0], None)] + Visited(defs[1..], t)
              && Visited(defs, t)[1..] == Visited(defs[1..], t)
              && Seen(defs, t, created) == Join(SeenOne(defs[0], t, created), Seen(defs[1..], t, created))
  {
    if defs != [] && !defs[0].Choice? {
      assert ActiveOne(defs[0], Outline(NamesIn(t)), None) == [Item(defs[0], None)] by {
        match defs[0]
        case Leaf(_, _) =>
        case Container(_, _) =>
        case List(_, _) =>
      }
      assert Visited(defs, t) == [Item(defs[0], None)] + Visited(defs[1..], t);
      assert Visited(defs, t)[1..] == Visited(defs[1..], t);
      hide Visited, SeenOne;
    }
  }

  // ---------- data that a walk sees as it is ----------

  ghost predicate OfLeaf(items: seq<Item>, ident: string) {
    exists i :: 0 <= i < |items| && items[i].def.Leaf? && items[i].def.ident == ident
  }

  ghost predicate OfSub(items: seq<Item>, ident: string, sub: Data)
    decreases sub, 2
  {
    exists i :: 0 <= i < |items| && items[i].def.ident == ident && FitsSub(items[i].def, sub)
  }

  ghost predicate FitsSub(d: Def, sub: Data)
    decreases sub, 1
  {
    match d
    case Container(_, defs) => Fits(defs, sub, true)
    case List(_, defs) => sub.Rows? && forall i :: 0 <= i < |sub.rows| ==> Fits(defs, sub.rows[i].data, true)
    case _ => false
  }

  /**
    Data of the schema: only names that the walk visits, so of one case of each choice, each used as the schema says,
    and (if `created`) no default missing.
  */
  ghost predicate Fits(defs: seq<Def>, t: Data, created: bool)
    decreases t, 0
  {
    var items := Visited(defs, t);
    && t.Obj?
    && (forall k :: k in t.leafs ==> OfLeaf(items, k))
    && (forall k :: k in t.subs ==> OfSub(items, k, t.subs[k]))
    && (created ==> forall i :: 0 <= i < |items| && items[i].def.Leaf? && items[i].def.default.Some? ==>
          items[i].def.ident in t.leafs)
  }

  /** Only what is visited is seen. */
  lemma {:induction false} SeenNames(items: seq<Item>, t: Data, created: bool, k: string)
    ensures k in SeenItems(items, t, created).leafs ==> OfLeaf(items, k)
    ensures k in SeenItems(items, t, created).subs ==>
              exists i :: 0 <= i < |items| && !items[i].def.Leaf? && items[i].def.ident == k
  {
    if items != [] {
      SeenNames(items[1..], t, created, k);
      SeenOneNames(items[0].def, t, created);
      var one, rest := SeenOne(items[0].def, t, created), SeenItems(items[1..], t, created);
      hide SeenOne;
      if k in rest.leafs {
        var i :| 0 <= i < |items[1..]| && items[1..][i].def.Leaf? && items[1..][i].def.ident == k;
        assert items[1..][i] == items[i + 1];
      }
      if k in rest.subs {
        var i :| 0 <= i < |items[1..]| && !items[1..][i].def.Leaf? && items[1..][i].def.ident == k;
        assert items[1..][i] == items[i + 1];
      }
      if k in one.leafs || k in one.subs {
        assert items[0].def.ident == k;
      }
    }
  }

  lemma SeenOneNames(d: Def, t: Data, created: bool)
    ensures forall k :: k in SeenOne(d, t, created).leafs ==> k == d.ident && d.Leaf?
    ensures forall k :: k in SeenOne(d, t, created).subs ==> k == d.ident && !d.Leaf?
  {
  }

  lemma {:induction false} SeenAt(items: seq<Item>, t: Data, created: bool, i: nat)
    requires PlainItems(items) && i < |items|
    ensures var one, all, id := SeenOne(items[i].def, t, created), SeenItems(items, t, created), items[i].def.ident;
            && (id in all.leafs <==> id in one.leafs) && (id in one.leafs ==> all.leafs[id] == one.leafs[id])
            && (id in all.subs <==> id in one.subs) && (id in one.subs ==> all.subs[id] == one.subs[id])
  {
    PlainRest(items);
    SeenNames(items[1..], t, created, items[i].def.ident);
    SeenOneNames(items[0].def, t, created);
    if i > 0 {
      SeenAt(items[1..], t, created, i - 1);
      assert items[0].def.ident != items[i].def.ident;
    }
    hide SeenOne, PlainItems;
  }

  /** A walk along the schema sees all of the data that fit it, and nothing else. */
  lemma {:induction false} SeenIsAll(defs: seq<Def>, t: Data, created: bool)
    requires Plain(defs) && Fits(defs, t, created)
    ensures Seen(defs, t, created) == t
    decreases t, 1
  {
    FitsItems(defs, t, created);
    hide *;
    SeenLeafs(Visited(defs, t), t, created);
    SeenChildren(Visited(defs, t), t, created);
  }

  lemma SeenLeafs(items: seq<Item>, t: Data, created: bool)
    requires PlainItems(items) && t.Obj? && forall k :: k in t.leafs ==> OfLeaf(items, k)
    requires created ==> forall i :: 0 <= i < |items| && items[i].def.Leaf? && items[i].def.default.Some? ==>
               items[i].def.ident in t.leafs
    ensures SeenItems(items, t, created).leafs == t.leafs
  {
    hide OfLeaf, SeenItems, PlainItems;
    var all := SeenItems(items, t, created);
    forall k ensures k in all.leafs <==> k in t.leafs
             ensures k in t.leafs ==> all.leafs[k] == t.leafs[k]
    {
      SeenLeaf(items, t, created, k);
    }
  }

  lemma {:induction false} SeenChildren(items: seq<Item>, t: Data, created: bool)
    requires PlainItems(items) && t.Obj? && forall k :: k in t.subs ==> OfSub(items, k, t.subs[k])
    ensures SeenItems(items, t, created).subs == t.subs
    decreases t, 0, 1
  {
    hide OfSub, SeenItems, PlainItems;
    var all := SeenItems(items, t, created);
    forall k ensures k in all.subs <==> k in t.subs
             ensures k in t.subs ==> all.subs[k] == t.subs[k]
    {
      SeenChild(items, t, created, k);
    }
  }

  lemma FitsItems(defs: seq<Def>, t: Data, created: bool)
    requires Plain(defs) && Fits(defs, t, created)
    ensures var items := Visited(defs, t);
            && PlainItems(items) && t.Obj? && Seen(defs, t, created) == SeenItems(items, t, created)
            && (forall k :: k in t.leafs ==> OfLeaf(items, k))
               && (forall k :: k in t.subs ==> OfSub(items, k, t.subs[k]))
            && (created ==> forall i :: 0 <= i < |items| && items[i].def.Leaf? && items[i].def.default.Some? ==>
                  items[i].def.ident in t.leafs)
  {
    ActivePlain(defs, Outline(NamesIn(t)), None);
  }

  lemma {:induction false} SeenChild(items: seq<Item>, t: Data, created: bool, k: string)
    requires PlainItems(items) && t.Obj? && (k in t.subs ==> OfSub(items, k, t.subs[k]))
    ensures var all := SeenItems(items, t, created);
            (k in all.subs <==> k in t.subs) && (k in t.subs ==> all.subs[k] == t.subs[k])
    decreases t, 0, 0
  {
    SeenNames(items, t, created, k);
    if k in t.subs {
      var i :| 0 <= i < |items| && items[i].def.ident == k && FitsSub(items[i].def, t.subs[k]);
      SeenSub(items[i].def, t.subs[k]);
      SeenAt(items, t, created, i);
      SubSeen(items[i].def, t, created);
    } else if k in SeenItems(items, t, created).subs {
      var i :| 0 <= i < |items| && !items[i].def.Leaf? && items[i].def.ident == k;
      SeenAt(items, t, created, i);
      SubSeen(items[i].def, t, created);
    }
  }

  lemma SeenLeaf(items: seq<Item>, t: Data, created: bool, k: string)
    requires PlainItems(items) && t.Obj? && (k in t.leafs ==> OfLeaf(items, k))
    requires created ==> forall i :: 0 <= i < |items| && items[i].def.Leaf? && items[i].def.default.Some? ==>
               items[i].def.ident in t.leafs
    ensures var all := SeenItems(items, t, created);
            (k in all.leafs <==> k in t.leafs) && (k in t.leafs ==> all.leafs[k] == t.leafs[k])
  {
    SeenNames(items, t, created, k);
    if k in t.leafs || k in SeenItems(items, t, created).leafs {
      var i :| 0 <= i < |items| && items[i].def.Leaf? && items[i].def.ident == k;
      SeenAt(items, t, created, i);
    }
    hide SeenItems, PlainItems;
  }

  lemma SubSeen(d: Def, t: Data, created: bool)
    requires !d.Leaf? && !d.Choice?
    ensures var one := SeenOne(d, t, created);
            && (d.ident in one.subs <==> HasSub(t, d.ident))
            && (HasSub(t, d.ident) ==>
                  one.subs[d.ident] == if d.Container? then Seen(d.defs, t.subs[d.ident], true)
                    else Rows(SeenRows(d.defs, t.subs[d.ident], 0)))
  {
  }

  lemma {:induction false} SeenSub(d: Def, sub: Data)
    requires PlainOne(d) && FitsSub(d, sub)
    ensures d.Container? ==> Seen(d.defs, sub, true) == sub
    ensures d.List? ==> Rows(SeenRows(d.defs, sub, 0)) == sub
    decreases sub, 2
  {
    if d.Container? {
      SeenIsAll(d.defs, sub, true);
    } else {
      SeenAllRows(d.defs, sub, 0);
      assert sub.rows[0..] == sub.rows;
    }
  }

  lemma {:induction false} SeenAllRows(defs: seq<Def>, t: Data, i: nat)
    requires Plain(defs) && t.Rows? && i <= |t.rows|
    requires forall j :: 0 <= j < |t.rows| ==> Fits(defs, t.rows[j].data, true)
    ensures SeenRows(defs, t, i) == t.rows[i..]
    decreases t, 0, |t.rows| - i
  {
    if i < |t.rows| {
      SeenIsAll(defs, t.rows[i].data, true);
      SeenAllRows(defs, t, i + 1);
    }
  }
}
