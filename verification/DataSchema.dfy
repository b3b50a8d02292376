/** The schema definitions that the data walks follow, and the trees of data they walk over. */
module DataSchema {
  import opened Wrappers

  type Value = string

  datatype Def =
    | Leaf(ident: string, default: Option<Value>)
    | Container(ident: string, defs: seq<Def>)
    | List(ident: string, defs: seq<Def>)
    | Choice(ident: string, cases: seq<Case>)

  datatype Case = Case(ident: string, defs: seq<Def>)

  /**
    Data held in Go maps, as `childMap` and `listMap` of nodeutil/reflect.go keep it: a container or list
    item maps names to leaf values and to further maps, a list maps keys to the maps of its items.
  */
  datatype Tree = Tree(leafs: map<string, Value>, subs: map<string, Tree>)

  const EMPTY := Tree(map[], map[])

  predicate Populated(t: Tree, ident: string) {
    ident in t.leafs || ident in t.subs
  }

  predicate HasData(c: Case, t: Tree) {
    exists i :: 0 <= i < |c.defs| && Populated(t, c.defs[i].ident)
  }

  /** The case of a choice that holds data: the first one found. */
  function Choose(cases: seq<Case>, t: Tree): (r: Option<nat>)
    ensures r.Some? ==> r.value < |cases| && HasData(cases[r.value], t)
    ensures r.None? ==> forall i :: 0 <= i < |cases| ==> !HasData(cases[i], t)
  {
    ChooseFrom(cases, t, 0)
  }

  function ChooseFrom(cases: seq<Case>, t: Tree, i: nat): (r: Option<nat>)
    requires i <= |cases|
    ensures r.Some? ==> i <= r.value < |cases| && HasData(cases[r.value], t)
    ensures r.None? ==> forall j :: i <= j < |cases| ==> !HasData(cases[j], t)
    decreases |cases| - i
  {
    if i == |cases| then None
    else if HasData(cases[i], t) then Some(i)
    else ChooseFrom(cases, t, i + 1)
  }

  /** The choice a definition sits in directly, and which of its cases it belongs to. */
  datatype Home = Home(cases: seq<Case>, mine: nat)

  datatype Item = Item(def: Def, home: Option<Home>)

  /**
    The definitions a walk over `t` visits: every choice, however deeply nested, is replaced by the
    definitions of the case that holds data, or by nothing.
  */
  ghost function Active(defs: seq<Def>, t: Tree, home: Option<Home>): seq<Item> {
    if defs == [] then [] else ActiveOne(defs[0], t, home) + Active(defs[1..], t, home)
  }

  ghost function ActiveOne(d: Def, t: Tree, home: Option<Home>): seq<Item> {
    match d
    case Choice(_, cases) =>
      (match Choose(cases, t)
       case None => []
       case Some(i) => Active(cases[i].defs, t, Some(Home(cases, i))))
    case _ => [Item(d, home)]
  }
}
