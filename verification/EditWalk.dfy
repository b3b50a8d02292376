/** The walk over the definitions of a container, related to the steps of an edit one definition at a time. */
module EditWalk {
  import opened Wrappers
  import opened DataSchema
  import opened SchemaNames
  import opened EditSpec
  import opened EditStep
  import opened EditRun

  /** A home whose other cases do not have the given name. */
  ghost predicate GoodHome(home: Option<Home>, ident: string) {
    home.Some? ==> home.value.mine < |home.value.cases| && ident !in Others(home.value)
  }

  // A list has a node of its own, whose children are its items; `inList` says that an item is meant.

  ghost predicate Enterable(d: Def) {
    (d.Container? || d.List?) && Plain(d.defs)
  }

  lemma EnterableIs(d: Def)
    requires Enterable(d)
    ensures (d.Container? || d.List?) && Plain(d.defs)
  {
  }

  ghost predicate Allowed(st: Strategy, d: Def, inList: bool, from: Tree, to: Tree)
    requires d.Container? || d.List?
  {
    if d.List? && !inList then AdmitsRows(st, from, to) else Admits(st, d.defs, from, to)
  }

  ghost function Result(st: Strategy, d: Def, inList: bool, from: Tree, to: Tree, created: bool, force: bool): Tree
    requires d.Container? || d.List?
  {
    if d.List? && !inList then EditedRows(d.defs, from, to, force) else Edited(st, d.defs, from, to, created, force)
  }

  // ---------- the walk ----------

  ghost predicate AdmitsFirst(st: Strategy, items: seq<Item>, n: nat, from: Tree, to: Tree)
    requires n <= |items|
  {
    forall i :: 0 <= i < n && !items[i].def.Leaf? && items[i].def.ident in from.subs ==>
      AdmitsChild(st, items[i].def, from.subs[items[i].def.ident], to)
  }

  /** What has been done after the first `n` definitions of the walk. */
  ghost predicate Done(st: Strategy, defs: seq<Def>, from: Tree, to0: Tree, t: Tree, created: bool, force: bool,
                       n: nat) {
    && n <= |Active(defs, from, None)|
    && t == EditedItems(st, Active(defs, from, None)[..n], from, to0, Defaults(st, created, force), force)
    && AdmitsFirst(st, Active(defs, from, None), n, from, to0)
  }

  lemma StartWalk(st: Strategy, defs: seq<Def>, from: Tree, to0: Tree, created: bool, force: bool)
    ensures Done(st, defs, from, to0, to0, created, force, 0)
  {
  }

  lemma EndWalk(st: Strategy, defs: seq<Def>, from: Tree, to0: Tree, t: Tree, created: bool, force: bool)
    requires Done(st, defs, from, to0, t, created, force, |Active(defs, from, None)|)
    ensures t == Edited(st, defs, from, to0, created, force) && Admits(st, defs, from, to0)
  {
    var items := Active(defs, from, None);
    assert items[..|items|] == items;
  }

  /** What is known when the walk comes to its `n`-th definition. */
  lemma WalkAt(st: Strategy, defs: seq<Def>, from: Tree, to0: Tree, t: Tree, created: bool, force: bool, n: nat)
    requires Plain(defs) && n < |Active(defs, from, None)|
    requires Done(st, defs, from, to0, t, created, force, n)
    ensures var it := Active(defs, from, None)[n];
            && !it.def.Choice? && GoodHome(it.home, it.def.ident)
            && (!it.def.Leaf? ==> Enterable(it.def))
            && (it.def.ident in t.subs <==> it.def.ident in to0.subs)
            && (it.def.ident in to0.subs ==> t.subs[it.def.ident] == to0.subs[it.def.ident])
  {
    var items := Active(defs, from, None);
    ActiveOk(defs, from, None);
    ActivePlain(defs, from, None);
    assert ItemOk(items[n], from);
    NotYet(st, items, n, from, to0, Defaults(st, created, force), force);
  }

  lemma WalkNext(st: Strategy, defs: seq<Def>, from: Tree, to0: Tree, t: Tree, t': Tree, created: bool, force: bool,
                 n: nat)
    requires n < |Active(defs, from, None)|
    requires Done(st, defs, from, to0, t, created, force, n)
    requires var it := Active(defs, from, None)[n];
             && t' == StepTree(st, it, from, t, Defaults(st, created, force), force)
             && (!it.def.Leaf? && it.def.ident in from.subs ==> AdmitsChild(st, it.def, from.subs[it.def.ident], to0))
    ensures Done(st, defs, from, to0, t', created, force, n + 1)
  {
    EditedNext(st, Active(defs, from, None), n, from, to0, Defaults(st, created, force), force);
  }

  lemma WalkRefused(st: Strategy, defs: seq<Def>, from: Tree, to0: Tree, n: nat)
    requires n < |Active(defs, from, None)|
    requires var it := Active(defs, from, None)[n];
             !it.def.Leaf? && it.def.ident in from.subs && !AdmitsChild(st, it.def, from.subs[it.def.ident], to0)
    ensures !Admits(st, defs, from, to0)
  {
  }

  lemma ChildResult(st: Strategy, d: Def, from: Tree, to0: Tree, created: bool, force: bool)
    requires d.Container? || d.List?
    ensures Result(st, d, false, from, Sub(to0, d.ident), created, force)
         == EditedSub(st, d, from, Sub(to0, d.ident), created, force)
    ensures AdmitsChild(st, d, from, to0) <==>
              (st.Insert? ==> d.ident !in to0.subs) && (st.Update? ==> d.ident in to0.subs)
              && Allowed(st, d, false, from, Sub(to0, d.ident))
  {
  }

  lemma EnterFacts(st: Strategy, d: Def, inList: bool, from: Tree, to: Tree, created: bool, force: bool)
    requires d.Container? || d.List?
    ensures Allowed(st, d, inList, from, to) <==>
              if d.List? && !inList then AdmitsRows(st, from, to) else Admits(st, d.defs, from, to)
    ensures Result(st, d, inList, from, to, created, force) ==
            if d.List? && !inList then EditedRows(d.defs, from, to, force)
            else Edited(st, d.defs, from, to, created, force)
  {
  }

  // ---------- rows ----------

  ghost function EditedRow(defs: seq<Def>, from: Tree, to: Tree, k: string, force: bool): Tree
    requires k in from.subs
  {
    Edited(Upsert, defs, from.subs[k], Sub(to, k), k !in to.subs, force)
  }

  /** The list after the rows with some of the source's keys have been merged in. */
  ghost function SomeRows(defs: seq<Def>, from: Tree, to: Tree, done: set<string>, force: bool): Tree
    requires done <= from.subs.Keys
  {
    Tree(to.leafs, to.subs + map k | k in done :: EditedRow(defs, from, to, k, force))
  }

  lemma NoRows(defs: seq<Def>, from: Tree, to: Tree, force: bool)
    ensures SomeRows(defs, from, to, {}, force) == to
  {
    assert to.subs + map[] == to.subs;
  }

  lemma AllRows(defs: seq<Def>, from: Tree, to: Tree, force: bool)
    ensures SomeRows(defs, from, to, from.subs.Keys, force) == EditedRows(defs, from, to, force)
  {
  }

  lemma OneMoreRow(defs: seq<Def>, from: Tree, to: Tree, done: set<string>, k: string, force: bool)
    requires done <= from.subs.Keys && k in from.subs && k !in done
    ensures var t := SomeRows(defs, from, to, done, force);
            SomeRows(defs, from, to, done + {k}, force)
              == Tree(t.leafs, t.subs[k := EditedRow(defs, from, to, k, force)])
  {
  }

  lemma RowUntouched(defs: seq<Def>, from: Tree, to: Tree, done: set<string>, k: string, force: bool)
    requires done <= from.subs.Keys && k !in done
    ensures var t := SomeRows(defs, from, to, done, force);
            (k in t.subs <==> k in to.subs) && (k in to.subs ==> t.subs[k] == to.subs[k])
  {
  }
}
