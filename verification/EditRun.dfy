/**
  What the walk of node/edit.go makes of any target, one definition after the other, and when that is the merge of
  source and target.
*/
module EditRun {
  import opened Wrappers
  import opened DataSchema
  import opened SchemaNames
  import opened EditSpec
  import opened EditStep

  // ---------- the target after the steps of an edit ----------

  ghost function Edited(st: Strategy, defs: seq<Def>, from: Tree, to: Tree, created: bool, force: bool): Tree
    decreases from, 3
  {
    EditedItems(st, Active(defs, from, None), from, to, Defaults(st, created, force), force)
  }

  ghost function EditedItems(st: Strategy, items: seq<Item>, from: Tree, to: Tree, useDefault: bool, force: bool): Tree
    decreases from, 2, |items|
  {
    if items == [] then to else
      var n := |items| - 1;
      var cur := EditedItems(st, items[..n], from, to, useDefault, force);
      Stepped(st, items[n], from, cur, useDefault, EditedChild(st, items[n], from, cur, force))
  }

  ghost function EditedChild(st: Strategy, it: Item, from: Tree, cur: Tree, force: bool): Tree
    decreases from, 1
  {
    var id := it.def.ident;
    if id in from.subs then EditedSub(st, it.def, from.subs[id], Sub(cur, id), id !in cur.subs, force) else EMPTY
  }

  ghost function EditedSub(st: Strategy, d: Def, from: Tree, to: Tree, created: bool, force: bool): Tree
    decreases from, 4
  {
    match d
    case Container(_, defs) => Edited(st, defs, from, to, created, force)
    case List(_, defs) => EditedRows(defs, from, to, force)
    case _ => to
  }

  ghost function EditedRows(defs: seq<Def>, from: Tree, to: Tree, force: bool): Tree
    decreases from, 3
  {
    Tree(to.leafs, to.subs + map k | k in from.subs ::
      Edited(Upsert, defs, from.subs[k], Sub(to, k), k !in to.subs, force))
  }

  ghost function StepTree(st: Strategy, it: Item, from: Tree, cur: Tree, useDefault: bool, force: bool): Tree {
    Stepped(st, it, from, cur, useDefault, EditedChild(st, it, from, cur, force))
  }

  lemma EditedNext(st: Strategy, items: seq<Item>, n: nat, from: Tree, to: Tree, useDefault: bool, force: bool)
    requires n < |items|
    ensures EditedItems(st, items[..0], from, to, useDefault, force) == to
    ensures EditedItems(st, items[..n + 1], from, to, useDefault, force)
         == StepTree(st, items[n], from, EditedItems(st, items[..n], from, to, useDefault, force), useDefault, force)
  {
    assert items[..n + 1][..n] == items[..n];
  }

  // ---------- what a step keeps ----------

  /** Clearing drops names of the cases not chosen only. */
  lemma ClearOtherIs(t: Tree, home: Option<Home>)
    ensures home.None? ==> ClearOther(t, home) == t
    ensures home.Some? ==> forall n :: n !in Others(home.value) ==> SameName(ClearOther(t, home), t, n)
  {
    if home.Some? && Choose(home.value.cases, t).Some? {
      ActiveNames(home.value.cases[Choose(home.value.cases, t).value].defs, t, None);
    }
  }

  ghost predicate SameName(s: Tree, t: Tree, n: string) {
    && (n in s.leafs <==> n in t.leafs) && (n in t.leafs ==> s.leafs[n] == t.leafs[n])
    && (n in s.subs <==> n in t.subs) && (n in t.subs ==> s.subs[n] == t.subs[n])
  }

  lemma SteppedKeeps(st: Strategy, q: Item, from: Tree, cur: Tree, useDefault: bool, sub: Tree, n: string)
    requires n != q.def.ident && (q.home.Some? ==> n !in Others(q.home.value))
    ensures SameName(Stepped(st, q, from, cur, useDefault, sub), cur, n)
  {
    ClearOtherIs(cur, q.home);
    hide ClearOther, Others, LeafValue;
  }

  /** Until the walk comes to a definition, and after it has, the steps for others leave its data alone. */
  lemma {:induction false} StepsKeep(st: Strategy, items: seq<Item>, from: Tree, to: Tree, useDefault: bool,
                                     force: bool, n: string)
    requires forall q :: 0 <= q < |items| ==>
               items[q].def.ident != n && (items[q].home.Some? ==> n !in Others(items[q].home.value))
    ensures SameName(EditedItems(st, items, from, to, useDefault, force), to, n)
    decreases |items|
  {
    if items != [] {
      var k := |items| - 1;
      var cur := EditedItems(st, items[..k], from, to, useDefault, force);
      StepsKeep(st, items[..k], from, to, useDefault, force, n);
      SteppedKeeps(st, items[k], from, cur, useDefault, EditedChild(st, items[k], from, cur, force), n);
    }
  }

  lemma VisitedApart(items: seq<Item>, from: Tree, i: nat, q: nat)
    requires ItemsOk(items, from) && i < |items| && q < |items|
    ensures i != q ==> items[q].def.ident != items[i].def.ident
    ensures items[q].home.Some? ==> items[i].def.ident !in Others(items[q].home.value)
  {
    assert ItemOk(items[i], from);
    if q < i {
      assert Apart(items[q], items[i]);
    } else if i < q {
      assert Apart(items[i], items[q]);
    }
  }

  /** When the walk comes to a definition, the target still holds what it held at the start. */
  lemma NotYet(st: Strategy, items: seq<Item>, n: nat, from: Tree, to: Tree, useDefault: bool, force: bool)
    requires ItemsOk(items, from) && n < |items|
    ensures SameName(EditedItems(st, items[..n], from, to, useDefault, force), to, items[n].def.ident)
  {
    forall q | 0 <= q < n
      ensures items[q].def.ident != items[n].def.ident
      ensures items[q].home.Some? ==> items[n].def.ident !in Others(items[q].home.value)
    {
      VisitedApart(items, from, n, q);
    }
    StepsKeep(st, items[..n], from, to, useDefault, force, items[n].def.ident);
  }

  /** And after the walk has left it, it is as it was left. */
  lemma {:induction false} NoMore(st: Strategy, items: seq<Item>, i: nat, n: nat, from: Tree, to: Tree,
                                  useDefault: bool, force: bool)
    requires ItemsOk(items, from) && i < n <= |items|
    ensures SameName(EditedItems(st, items[..n], from, to, useDefault, force),
                     EditedItems(st, items[..i + 1], from, to, useDefault, force), items[i].def.ident)
    decreases n
  {
    if i + 1 < n {
      var k := n - 1;
      var cur := EditedItems(st, items[..k], from, to, useDefault, force);
      NoMore(st, items, i, k, from, to, useDefault, force);
      EditedNext(st, items, k, from, to, useDefault, force);
      VisitedApart(items, from, i, k);
      SteppedKeeps(st, items[k], from, cur, useDefault, EditedChild(st, items[k], from, cur, force),
                   items[i].def.ident);
      hide Stepped, Others;
    }
  }

  lemma OneStep(st: Strategy, defs: seq<Def>, from: Tree, to: Tree, created: bool, force: bool, i: nat)
    returns (cur: Tree)
    requires Plain(defs) && i < |Active(defs, from, None)|
    ensures var it, u := Active(defs, from, None)[i], Defaults(st, created, force);
            && ItemOk(it, from) && SameName(cur, to, it.def.ident)
            && SameName(Edited(st, defs, from, to, created, force), StepTree(st, it, from, cur, u, force), it.def.ident)
  {
    var items, u := Active(defs, from, None), Defaults(st, created, force);
    ActiveOk(defs, from, None);
    cur := EditedItems(st, items[..i], from, to, u, force);
    NotYet(st, items, i, from, to, u, force);
    NoMore(st, items, i, |items|, from, to, u, force);
    EditedNext(st, items, i, from, to, u, force);
    assert items[..|items|] == items;
    hide Active, Plain, StepTree;
  }

  /**
    What an edit leaves in a leaf that the walk visits, whatever the target holds: the source's value, else the default
    if an insert or upsert created the container (or defaults are forced), else the old value or none.
  */
  lemma EditedLeaf(st: Strategy, defs: seq<Def>, from: Tree, to: Tree, created: bool, force: bool, i: nat)
    requires Plain(defs) && i < |Active(defs, from, None)| && Active(defs, from, None)[i].def.Leaf?
    ensures var d := Active(defs, from, None)[i].def;
            var filled := (created && st != Update) || force;
            var after := Edited(st, defs, from, to, created, force);
            && (d.ident in from.leafs ==> d.ident in after.leafs && after.leafs[d.ident] == from.leafs[d.ident])
            && (d.ident !in from.leafs && filled && d.default.Some? ==>
                  d.ident in after.leafs && after.leafs[d.ident] == d.default.value)
            && (d.ident !in from.leafs && (!filled || d.default.None?) ==>
                  (d.ident in after.leafs <==> d.ident in to.leafs)
                  && (d.ident in to.leafs ==> after.leafs[d.ident] == to.leafs[d.ident]))
  {
    var cur := OneStep(st, defs, from, to, created, force, i);
    hide Active, Plain, Edited, ClearOther;
  }

  /** And in a child: what the same walk over the child makes of it. */
  lemma EditedChildIs(st: Strategy, defs: seq<Def>, from: Tree, to: Tree, created: bool, force: bool, i: nat)
    requires Plain(defs) && i < |Active(defs, from, None)| && !Active(defs, from, None)[i].def.Leaf?
    ensures var d := Active(defs, from, None)[i].def;
            var after := Edited(st, defs, from, to, created, force);
            && (d.ident in from.subs ==>
                  d.ident in after.subs
                  && after.subs[d.ident] == EditedSub(st, d, from.subs[d.ident], Sub(to, d.ident), d.ident !in to.subs,
                                                      force))
            && (d.ident !in from.subs ==>
                  (d.ident in after.subs <==> d.ident in to.subs)
                  && (d.ident in to.subs ==> after.subs[d.ident] == to.subs[d.ident]))
  {
    var cur := OneStep(st, defs, from, to, created, force, i);
    hide Active, Plain, Edited, ClearOther, EditedSub;
  }

  // ---------- when it is the merge ----------

  lemma ReachedAt(defs: seq<Def>, from: Tree, to: Tree, n: nat)
    requires Plain(defs) && ChoicesOk(defs, to) && n < |Active(defs, from, None)|
    ensures var items := Active(defs, from, None);
            Reached(items[..n], items[n], from, to) && ItemOk(items[n], from)
              && items[..n + 1] == items[..n] + [items[n]]
  {
    var items := Active(defs, from, None);
    ActiveOk(defs, from, None);
    HomesOk(defs, from, to, None);
    var init := items[..n] + [items[n]];
    assert forall i :: 0 <= i < |init| ==> init[i] == items[i];
  }

  /** In a target that holds one case of every choice at most, at every depth, the edit is the merge. */
  lemma {:induction false} EditedIsMerge(st: Strategy, defs: seq<Def>, from: Tree, to: Tree, created: bool, force: bool)
    requires Plain(defs) && Proper(defs, to)
    ensures Edited(st, defs, from, to, created, force) == Merge(st, defs, from, to, created, force)
    decreases from, 3
  {
    var items := Active(defs, from, None);
    ItemsMerged(st, defs, from, to, Defaults(st, created, force), force, |items|);
    assert items[..|items|] == items;
  }

  lemma {:induction false} ItemsMerged(st: Strategy, defs: seq<Def>, from: Tree, to: Tree, useDefault: bool,
                                       force: bool, n: nat)
    requires Plain(defs) && Proper(defs, to) && n <= |Active(defs, from, None)|
    ensures var items := Active(defs, from, None)[..n];
            EditedItems(st, items, from, to, useDefault, force) == MergeItems(st, items, from, to, useDefault, force)
    decreases from, 2, n
  {
    var items := Active(defs, from, None);
    if n == 0 {
      NothingMerged(st, from, to, useDefault, force);
    } else {
      var k := n - 1;
      ItemsMerged(st, defs, from, to, useDefault, force, k);
      ReachedAt(defs, from, to, k);
      ActiveOk(defs, from, None);
      NotYet(st, items, k, from, to, useDefault, force);
      MergeStep(st, items[..k], items[k], from, to, useDefault, force);
      EditedNext(st, items, k, from, to, useDefault, force);
      ChildMerged(st, defs, from, to, EditedItems(st, items[..k], from, to, useDefault, force), force, k);
    }
  }

  lemma NothingMerged(st: Strategy, from: Tree, to: Tree, useDefault: bool, force: bool)
    ensures MergeItems(st, [], from, to, useDefault, force) == to
  {
    assert to.leafs - {} + map[] == to.leafs && to.subs - {} + map[] == to.subs;
    assert Dropped(st, [], from, to, useDefault) == {};
  }

  lemma {:induction false} ChildMerged(st: Strategy, defs: seq<Def>, from: Tree, to: Tree, cur: Tree, force: bool,
                                       k: nat)
    requires Plain(defs) && Proper(defs, to) && k < |Active(defs, from, None)|
    requires SameName(cur, to, Active(defs, from, None)[k].def.ident)
    ensures var it := Active(defs, from, None)[k];
            EditedChild(st, it, from, cur, force) == MergedChild(st, it, from, to, force)
    decreases from, 1
  {
    var it := Active(defs, from, None)[k];
    var id := it.def.ident;
    ActivePlain(defs, from, None);
    ActiveProper(defs, from, to, None);
    if id in from.subs {
      SubMerged(st, it.def, from.subs[id], Sub(to, id), id !in to.subs, force);
    }
  }

  lemma {:induction false} SubMerged(st: Strategy, d: Def, from: Tree, to: Tree, created: bool, force: bool)
    requires PlainOne(d) && (ProperSub(d, to) || to == EMPTY)
    ensures EditedSub(st, d, from, to, created, force) == MergeSub(st, d, from, to, created, force)
    decreases from, 4
  {
    match d
    case Container(_, defs) =>
      EmptyIsProper(defs);
      EditedIsMerge(st, defs, from, to, created, force);
    case List(_, defs) => RowsMerged(defs, from, to, force);
    case _ =>
  }

  lemma {:induction false} RowsMerged(defs: seq<Def>, from: Tree, to: Tree, force: bool)
    requires Plain(defs) && forall k :: k in to.subs ==> Proper(defs, to.subs[k])
    ensures EditedRows(defs, from, to, force) == MergeRows(defs, from, to, force)
    decreases from, 3
  {
    hide Edited, Merge, Proper, Plain;
    EmptyIsProper(defs);
    forall k | k in from.subs
      ensures Edited(Upsert, defs, from.subs[k], Sub(to, k), k !in to.subs, force)
           == Merge(Upsert, defs, from.subs[k], Sub(to, k), k !in to.subs, force)
    {
      RowMerged(defs, from, to, k, force);
    }
  }

  lemma {:induction false} RowMerged(defs: seq<Def>, from: Tree, to: Tree, k: string, force: bool)
    requires Plain(defs) && Proper(defs, Sub(to, k)) && k in from.subs
    ensures Edited(Upsert, defs, from.subs[k], Sub(to, k), k !in to.subs, force)
         == Merge(Upsert, defs, from.subs[k], Sub(to, k), k !in to.subs, force)
    decreases from, 2
  {
    hide Proper, Plain, Edited, Merge;
    EditedIsMerge(Upsert, defs, from.subs[k], Sub(to, k), k !in to.subs, force);
  }

  // ---------- an insert asks for no choice of the target ----------

  /** An insert that succeeds is the merge whatever the target holds: all it enters is new. */
  lemma {:induction false} InsertIsMerge(defs: seq<Def>, from: Tree, to: Tree, created: bool, force: bool)
    requires Plain(defs) && Admits(Insert, defs, from, to)
    ensures Edited(Insert, defs, from, to, created, force) == Merge(Insert, defs, from, to, created, force)
  {
    var items := Active(defs, from, None);
    ActiveOk(defs, from, None);
    InsertsMerged(defs, from, to, Defaults(Insert, created, force), force, |items|);
    assert items[..|items|] == items;
  }

  lemma {:induction false} InsertsMerged(defs: seq<Def>, from: Tree, to: Tree, useDefault: bool, force: bool, n: nat)
    requires Plain(defs) && Admits(Insert, defs, from, to) && n <= |Active(defs, from, None)|
    ensures var items := Active(defs, from, None)[..n];
            EditedItems(Insert, items, from, to, useDefault, force)
              == MergeItems(Insert, items, from, to, useDefault, force)
    decreases n
  {
    var items := Active(defs, from, None);
    if n == 0 {
      NothingMerged(Insert, from, to, useDefault, force);
    } else {
      var k := n - 1;
      InsertsMerged(defs, from, to, useDefault, force, k);
      ActiveOk(defs, from, None);
      NotYet(Insert, items, k, from, to, useDefault, force);
      assert items[..n] == items[..k] + [items[k]];
      MergeStep(Insert, items[..k], items[k], from, to, useDefault, force);
      EditedNext(Insert, items, k, from, to, useDefault, force);
      ActivePlain(defs, from, None);
      var id := items[k].def.ident;
      if !items[k].def.Leaf? && id in from.subs {
        assert AdmitsChild(Insert, items[k].def, from.subs[id], to);
        SubMerged(Insert, items[k].def, from.subs[id], EMPTY, true, force);
      }
    }
  }
}
