/**
  Expansion of `uses` by clones of groupings (sections 7.12 and 7.13 of RFC 7950), with circular
  groupings tied into a finite cyclic graph: meta/resolver.go, and the clone / add / pop members of
  meta/core_gen.go.

  Definitions are objects that refer to each other and are changed in place, so the model keeps an
  arena of cells and a reference is a position in it.  `Def` is the text of a schema: what an
  untouched definition object says.
*/
module SchemaText {

  datatype Kind = ModuleKind | ContainerKind | ListKind

  datatype Def =
    | Leaf(ident: string)
    | Node(kind: Kind, ident: string, body: seq<Def>)
    | Uses(id: nat, group: string)

  /** The definitions of a module and the groupings its `uses` statements can name. */
  datatype Text = Text(main: seq<Def>, groups: map<string, seq<Def>>)

  /** A resolved schema seen down to some depth; `Cut` is a container or list at the horizon. */
  datatype Tree =
    | LeafTree(ident: string)
    | NodeTree(kind: Kind, ident: string, kids: seq<Tree>)
    | Cut(kind: Kind, ident: string)

  // ---------- what a text means ----------

  ghost predicate NoUses(ds: seq<Def>) {
    forall i :: 0 <= i < |ds| ==> !ds[i].Uses?
  }

  /** Every `uses` is replaced by the definitions of its grouping, `n` groupings deep. */
  ghost function FlattenIn(t: Text, ds: seq<Def>, n: nat): seq<Def>
    decreases n, |ds|
  {
    if ds == [] then [] else FlattenIn(t, ds[..|ds| - 1], n) + FlattenOne(t, ds[|ds| - 1], n)
  }

  ghost function FlattenOne(t: Text, d: Def, n: nat): seq<Def>
    decreases n, 0
  {
    if !d.Uses? then [d] else if d.group in t.groups && n > 0 then FlattenIn(t, t.groups[d.group], n - 1) else []
  }

  /** As there are no more groupings than these, all that are not circular are replaced. */
  ghost function Flatten(t: Text, ds: seq<Def>): seq<Def> {
    FlattenIn(t, ds, |t.groups|)
  }

  /** The ids of the `uses` that are met on the way, in their order. */
  ghost function MetIn(t: Text, ds: seq<Def>, n: nat): seq<nat>
    decreases n, |ds|
  {
    if ds == [] then [] else MetIn(t, ds[..|ds| - 1], n) + MetOne(t, ds[|ds| - 1], n)
  }

  ghost function MetOne(t: Text, d: Def, n: nat): seq<nat>
    decreases n, 0
  {
    if !d.Uses? then [] else [d.id] + if d.group in t.groups && n > 0 then MetIn(t, t.groups[d.group], n - 1) else []
  }

  ghost function Met(t: Text, ds: seq<Def>): seq<nat> {
    MetIn(t, ds, |t.groups|)
  }

  ghost predicate UsesKnownIn(t: Text, ds: seq<Def>, n: nat)
    decreases n, 1
  {
    forall i :: 0 <= i < |ds| ==> KnownOne(t, ds[i], n)
  }

  ghost predicate KnownOne(t: Text, d: Def, n: nat)
    decreases n, 0
  {
    d.Uses? ==> d.group in t.groups && (n > 0 ==> UsesKnownIn(t, t.groups[d.group], n - 1))
  }

  ghost predicate UsesKnown(t: Text, ds: seq<Def>) {
    UsesKnownIn(t, ds, |t.groups|)
  }

  /** Textual expansion, down to depth `n`. */
  ghost function Expand(t: Text, ds: seq<Def>, n: nat): seq<Tree>
    decreases n, 1
  {
    var f := Flatten(t, ds);
    seq(|f|, i requires 0 <= i < |f| => ExpandOne(t, f[i], n))
  }

  ghost function ExpandOne(t: Text, d: Def, n: nat): Tree
    decreases n, 0
  {
    match d
    case Leaf(ident) => LeafTree(ident)
    case Uses(_, group) => LeafTree(group)  // does not arise: all `uses` have been replaced
    case Node(kind, ident, body) =>
      if n == 0 then Cut(kind, ident) else NodeTree(kind, ident, Expand(t, body, n - 1))
  }

  function NameOf(d: Def): string {
    if d.Uses? then d.group else d.ident
  }

  ghost predicate DistinctNames(ds: seq<Def>) {
    forall i, j :: 0 <= i < j < |ds| ==> NameOf(ds[i]) != NameOf(ds[j])
  }

  /** Down to depth `n`, every `uses` names a grouping and no two siblings share a name. */
  ghost predicate Sound(t: Text, ds: seq<Def>, n: nat)
    decreases n
  {
    && UsesKnown(t, ds)
    && var f := Flatten(t, ds);
       && DistinctNames(f)
       && (n > 0 ==> forall i :: 0 <= i < |f| && f[i].Node? ==> Sound(t, f[i].body, n - 1))
  }

  ghost predicate AlwaysSound(t: Text, ds: seq<Def>) {
    forall n: nat :: Sound(t, ds, n)
  }

  // ---------- the condition on a text ----------

  /** `k` is the list of a container or list that the flattened list `l` has. */
  ghost predicate ChildOf(t: Text, k: seq<Def>, l: seq<Def>) {
    exists i :: 0 <= i < |Flatten(t, l)| && Flatten(t, l)[i].Node? && Flatten(t, l)[i].body == k
  }

  /** `k` is reached by the expansion of `l` in `n` steps. */
  ghost predicate BelowIn(t: Text, k: seq<Def>, l: seq<Def>, n: nat)
    decreases n
  {
    n > 0 && exists j: seq<Def> :: ChildOf(t, k, j) && (j == l || BelowIn(t, j, l, n - 1))
  }

  ghost predicate Below(t: Text, k: seq<Def>, l: seq<Def>) {
    exists n: nat :: BelowIn(t, k, l, n)
  }

  /** The list of the module, or of a container or list of its expansion. */
  ghost predicate Reached(t: Text, l: seq<Def>) {
    l == t.main || Below(t, l, t.main)
  }

  /** The `uses` that stand directly in groupings lead no deeper than `n` groupings. */
  ghost predicate Settles(t: Text, ds: seq<Def>, n: nat)
    decreases n, 1
  {
    forall i :: 0 <= i < |ds| ==> SettlesOne(t, ds[i], n)
  }

  ghost predicate SettlesOne(t: Text, d: Def, n: nat)
    decreases n, 0
  {
    d.Uses? && d.group in t.groups ==> n > 0 && Settles(t, t.groups[d.group], n - 1)
  }

  ghost predicate Distinct(ids: seq<nat>) {
    forall i, j :: 0 <= i < j < |ids| ==> ids[i] != ids[j]
  }

  ghost predicate Common(t: Text, l: seq<Def>, m: seq<Def>) {
    exists u :: u in Met(t, l) && u in Met(t, m)
  }

  /** The lists mean the same. */
  ghost predicate Alike(t: Text, l: seq<Def>, m: seq<Def>) {
    Flatten(t, l) == Flatten(t, m) && (UsesKnown(t, l) <==> UsesKnown(t, m))
  }

  /** No list below this one meets an id that this one meets. */
  ghost predicate Once(t: Text, l: seq<Def>) {
    forall k: seq<Def> :: Below(t, k, l) ==> !Common(t, k, l)
  }

  /**
    No grouping contains itself directly, no list meets a `uses` twice, and lists that meet the same `uses`, counting
    those met through groupings, are equal, or mean the same and do not meet what they meet again further down.
  */
  ghost predicate Clean(t: Text) {
    && (forall g :: g in t.groups ==> Settles(t, t.groups[g], |t.groups| - 1))
    && (forall l: seq<Def> :: Reached(t, l) ==> Distinct(Met(t, l)))
    && (forall l: seq<Def>, m: seq<Def> :: Reached(t, l) && Reached(t, m) && Common(t, l, m) ==>
          l == m || (Alike(t, l, m) && Once(t, l) && Once(t, m)))
  }

  /** Lists that meet the same `uses` are equal. */
  ghost predicate OneList(t: Text) {
    forall l: seq<Def>, m: seq<Def> :: Reached(t, l) && Reached(t, m) && Common(t, l, m) ==> l == m
  }

  ghost function IdsOf(ds: seq<Def>): set<nat> {
    set i, u | 0 <= i < |ds| && u in IdsOfOne(ds[i]) :: u
  }

  ghost function IdsOfOne(d: Def): set<nat> {
    match d
    case Leaf(_) => {}
    case Uses(id, _) => {id}
    case Node(_, _, body) => IdsOf(body)
  }

  ghost function Universe(t: Text): set<nat> {
    IdsOf(t.main) + set g, u | g in t.groups && u in IdsOf(t.groups[g]) :: u
  }

  // ---------- lemmas ----------

  lemma {:induction false} FlattenPrefix(t: Text, ds: seq<Def>, i: nat, n: nat)
    requires i < |ds|
    ensures FlattenIn(t, ds[..i + 1], n) == FlattenIn(t, ds[..i], n) + FlattenOne(t, ds[i], n)
    ensures FlattenIn(t, ds[..i + 1], n) <= FlattenIn(t, ds, n)
    decreases |ds| - i
  {
    assert ds[..i + 1][..i] == ds[..i];
    if i + 1 == |ds| {
      assert ds[..i + 1] == ds;
    } else {
      FlattenPrefix(t, ds, i + 1, n);
    }
  }

  lemma {:induction false} MetPrefix(t: Text, ds: seq<Def>, i: nat, n: nat)
    requires i < |ds|
    ensures MetIn(t, ds[..i + 1], n) == MetIn(t, ds[..i], n) + MetOne(t, ds[i], n)
    ensures MetIn(t, ds[..i + 1], n) <= MetIn(t, ds, n)
    decreases |ds| - i
  {
    assert ds[..i + 1][..i] == ds[..i];
    if i + 1 == |ds| {
      assert ds[..i + 1] == ds;
    } else {
      MetPrefix(t, ds, i + 1, n);
    }
  }

  lemma {:induction false} FlattenHasNoUses(t: Text, ds: seq<Def>, n: nat)
    ensures NoUses(FlattenIn(t, ds, n))
    decreases n, |ds|
  {
    if ds != [] {
      FlattenHasNoUses(t, ds[..|ds| - 1], n);
      var d := ds[|ds| - 1];
      if d.Uses? && d.group in t.groups && n > 0 {
        FlattenHasNoUses(t, t.groups[d.group], n - 1);
      }
    }
  }

  lemma CleanSettles(t: Text, l: seq<Def>)
    requires Clean(t)
    ensures Settles(t, l, |t.groups|)
  {
  }

  lemma AlwaysSoundBelow(t: Text, ds: seq<Def>, i: nat)
    requires AlwaysSound(t, ds)
    requires i < |Flatten(t, ds)| && Flatten(t, ds)[i].Node?
    ensures AlwaysSound(t, Flatten(t, ds)[i].body)
  {
    forall n: nat ensures Sound(t, Flatten(t, ds)[i].body, n) {
      assert Sound(t, ds, n + 1);
    }
  }

  lemma BelowChild(t: Text, k: seq<Def>, l: seq<Def>, j: seq<Def>)
    requires ChildOf(t, k, j) && (j == l || Below(t, j, l))
    ensures Below(t, k, l)
  {
    if j == l {
      assert BelowIn(t, k, l, 1);
    } else {
      var n: nat :| BelowIn(t, j, l, n);
      assert BelowIn(t, k, l, n + 1);
    }
  }

  lemma ReachedChild(t: Text, l: seq<Def>, i: nat)
    requires Reached(t, l) && i < |Flatten(t, l)| && Flatten(t, l)[i].Node?
    ensures Reached(t, Flatten(t, l)[i].body) && Below(t, Flatten(t, l)[i].body, l)
  {
    var k := Flatten(t, l)[i].body;
    assert ChildOf(t, k, l);
    BelowChild(t, k, l, l);
    BelowChild(t, k, t.main, l);
  }

  /** What a set of lists has that is closed under children: all that is below one of them. */
  lemma {:induction false} BelowStays(t: Text, k: seq<Def>, l: seq<Def>, n: nat, some: set<seq<Def>>)
    requires BelowIn(t, k, l, n) && l in some
    requires forall j, i :: j in some && 0 <= i < |Flatten(t, j)| && Flatten(t, j)[i].Node? ==>
               Flatten(t, j)[i].body in some
    ensures k in some
    decreases n
  {
    var j: seq<Def> :| ChildOf(t, k, j) && (j == l || BelowIn(t, j, l, n - 1));
    if j != l {
      BelowStays(t, j, l, n - 1, some);
    }
  }
}
