/**
  What an edit is for: the merge of a source tree into a target tree under a schema, and its laws.
  node/edit.go computes it step by step (see Editor).
*/
module EditSpec {
  import opened Wrappers
  import opened DataSchema
  import opened SchemaNames

  datatype Strategy = Upsert | Insert | Update

  // ---------- the choices of the target ----------

  ghost function Names(defs: seq<Def>): set<string> {
    set i | 0 <= i < |defs| :: defs[i].ident
  }

  /** At most one case of the choice holds data (section 7.9 of RFC 7950). */
  ghost predicate OneCase(cases: seq<Case>, t: Tree) {
    forall i, j :: 0 <= i < |cases| && 0 <= j < |cases| && HasData(cases[i], t) && HasData(cases[j], t) ==> i == j
  }

  /**
    Every choice of a container, however deeply nested in cases, has at most one case that holds data, and no data
    itself.
  */
  ghost predicate ChoicesOk(defs: seq<Def>, t: Tree) {
    defs == [] || (ChoiceOk(defs[0], t) && ChoicesOk(defs[1..], t))
  }

  ghost predicate ChoiceOk(d: Def, t: Tree) {
    d.Choice? ==> !Populated(t, d.ident) && OneCase(d.cases, t) && CasesOk(d.cases, t)
  }

  ghost predicate CasesOk(cases: seq<Case>, t: Tree) {
    cases == [] || (ChoicesOk(cases[0].defs, t) && CasesOk(cases[1..], t))
  }

  /** Every choice, at every depth, has at most one case that holds data. */
  ghost predicate Proper(defs: seq<Def>, t: Tree)
    decreases t, 1
  {
    ChoicesOk(defs, t) && SubsProper(defs, t)
  }

  ghost predicate SubsProper(defs: seq<Def>, t: Tree)
    decreases t, 0, defs
  {
    defs == [] || (SubProper(defs[0], t) && SubsProper(defs[1..], t))
  }

  ghost predicate SubProper(d: Def, t: Tree)
    decreases t, 0, d
  {
    if d.Choice? then CasesProper(d.cases, t) else d.ident in t.subs ==> ProperSub(d, t.subs[d.ident])
  }

  ghost predicate CasesProper(cases: seq<Case>, t: Tree)
    decreases t, 0, cases
  {
    cases == [] || (SubsProper(cases[0].defs, t) && CasesProper(cases[1..], t))
  }

  ghost predicate ProperSub(d: Def, t: Tree)
    decreases t, 2
  {
    match d
    case Container(_, defs) => Proper(defs, t)
    case List(_, defs) => forall k :: k in t.subs ==> Proper(defs, t.subs[k])
    case _ => true
  }

  // ---------- the merge ----------

  /** The value an edit writes to a leaf: the source's, else the default where defaults apply. */
  ghost function LeafValue(d: Def, from: Tree, useDefault: bool): Option<Value>
    requires d.Leaf?
  {
    if d.ident in from.leafs then Some(from.leafs[d.ident]) else if useDefault then d.default else None
  }

  ghost predicate Contributes(it: Item, from: Tree, useDefault: bool) {
    if it.def.Leaf? then LeafValue(it.def, from, useDefault).Some? else it.def.ident in from.subs
  }

  ghost function WrittenLeafs(items: seq<Item>, from: Tree, useDefault: bool): map<string, Value> {
    if items == [] then map[] else
      WrittenLeafs(items[..|items| - 1], from, useDefault) + NewLeaf(items[|items| - 1], from, useDefault)
  }

  ghost function NewLeaf(it: Item, from: Tree, useDefault: bool): map<string, Value> {
    if it.def.Leaf? && Contributes(it, from, useDefault) then
      map[it.def.ident := LeafValue(it.def, from, useDefault).value]
    else map[]
  }

  /** The children an edit writes: every child of the source, merged into the target's child of that name. */
  ghost function WrittenSubs(st: Strategy, items: seq<Item>, from: Tree, to: Tree, force: bool): map<string, Tree>
    decreases from, 1, |items|
  {
    if items == [] then map[] else
      WrittenSubs(st, items[..|items| - 1], from, to, force) + NewSub(st, items[|items| - 1], from, to, force)
  }

  ghost function NewSub(st: Strategy, it: Item, from: Tree, to: Tree, force: bool): map<string, Tree>
    decreases from, 0
  {
    var id := it.def.ident;
    if !it.def.Leaf? && id in from.subs then
      map[id := MergeSub(st, it.def, from.subs[id], Sub(to, id), id !in to.subs, force)]
    else map[]
  }

  function Sub(t: Tree, ident: string): Tree {
    if ident in t.subs then t.subs[ident] else EMPTY
  }

  /** What is deleted with a case: all that a walk over the target visits in it. */
  ghost function Cleared(defs: seq<Def>, t: Tree): set<string> {
    Idents(Active(defs, t, None))
  }

  /** What an upsert drops: the data of a case other than the one the source holds. */
  ghost function DroppedBy(st: Strategy, it: Item, from: Tree, to: Tree, useDefault: bool): set<string> {
    if st.Upsert? && Contributes(it, from, useDefault) && it.home.Some? then
      match Choose(it.home.value.cases, to)
      case None => {}
      case Some(j) => if j == it.home.value.mine then {} else Cleared(it.home.value.cases[j].defs, to)
    else {}
  }

  ghost function Dropped(st: Strategy, items: seq<Item>, from: Tree, to: Tree, useDefault: bool): set<string> {
    set i, n | 0 <= i < |items| && n in DroppedBy(st, items[i], from, to, useDefault) :: n
  }

  ghost function MergeItems(st: Strategy, items: seq<Item>, from: Tree, to: Tree, useDefault: bool, force: bool): Tree
    decreases from, 2
  {
    var dropped := Dropped(st, items, from, to, useDefault);
    Tree((to.leafs - dropped) + WrittenLeafs(items, from, useDefault),
         (to.subs - dropped) + WrittenSubs(st, items, from, to, force))
  }

  ghost predicate Defaults(st: Strategy, created: bool, force: bool) {
    (!st.Update? && created) || force
  }

  /** The merge at a container or list item with definitions `defs`; `created` says that this edit made the target. */
  ghost function Merge(st: Strategy, defs: seq<Def>, from: Tree, to: Tree, created: bool, force: bool): Tree
    decreases from, 3
  {
    MergeItems(st, Active(defs, from, None), from, to, Defaults(st, created, force), force)
  }

  /** The merge at a list: the union of the items by key, those of the source merged in by upsert. */
  ghost function MergeRows(defs: seq<Def>, from: Tree, to: Tree, force: bool): Tree
    decreases from, 3
  {
    Tree(to.leafs, to.subs + map k | k in from.subs ::
      Merge(Upsert, defs, from.subs[k], Sub(to, k), k !in to.subs, force))
  }

  ghost function MergeSub(st: Strategy, d: Def, from: Tree, to: Tree, created: bool, force: bool): Tree
    decreases from, 4
  {
    match d
    case Container(_, defs) => Merge(st, defs, from, to, created, force)
    case List(_, defs) => MergeRows(defs, from, to, force)
    case _ => to
  }

  // ---------- when an edit succeeds ----------

  /**
    Insert fails on a child that the target already holds, update on one that it does not hold; upsert never
    fails.
  */
  ghost predicate Admits(st: Strategy, defs: seq<Def>, from: Tree, to: Tree)
    decreases from, 0
  {
    var items := Active(defs, from, None);
    forall i :: 0 <= i < |items| && !items[i].def.Leaf? && items[i].def.ident in from.subs ==>
      AdmitsChild(st, items[i].def, from.subs[items[i].def.ident], to)
  }

  ghost predicate AdmitsChild(st: Strategy, d: Def, from: Tree, to: Tree)
    decreases from, 2
  {
    && (st.Insert? ==> d.ident !in to.subs)
    && (st.Update? ==> d.ident in to.subs)
    && AdmitsSub(st, d, from, Sub(to, d.ident))
  }

  ghost predicate AdmitsSub(st: Strategy, d: Def, from: Tree, to: Tree)
    decreases from, 1
  {
    match d
    case Container(_, defs) => Admits(st, defs, from, to)
    case List(_, defs) => AdmitsRows(st, from, to)
    case _ => true
  }

  /** Inside list items the strategy is always upsert, so only the keys decide. */
  ghost predicate AdmitsRows(st: Strategy, from: Tree, to: Tree) {
    forall k :: k in from.subs ==> AdmitsRow(st, k, to)
  }

  ghost predicate AdmitsRow(st: Strategy, k: string, to: Tree) {
    (st.Insert? ==> k !in to.subs) && (st.Update? ==> k in to.subs)
  }
}
