/** Which containers, lists and items decide whether an edit is refused, told by the names on the way to them. */
module EditPaths {
  import opened Wrappers
  import opened DataSchema
  import opened SchemaNames
  import opened EditSpec
  import opened EditStep
  import opened EditLaws
  import opened EditRun
  import opened EditWalk

  type Names = seq<string>

  /**
    A container, list or list item of the source that a walk over it visits below `d`; only outermost items if not
    `deep`.
  */
  ghost predicate Visited(d: Def, inList: bool, from: Tree, path: Names, deep: bool)
    decreases |path|
  {
    path == [] ||
    match d
    case Container(_, defs) => VisitedChild(defs, from, path, deep)
    case List(_, defs) =>
      if inList then VisitedChild(defs, from, path, deep)
      else path[0] in from.subs && (|path| == 1 || (deep && Visited(d, true, from.subs[path[0]], path[1..], deep)))
    case _ => false
  }

  ghost predicate VisitedChild(defs: seq<Def>, from: Tree, path: Names, deep: bool)
    requires path != []
    decreases |path|, 0
  {
    exists i :: 0 <= i < |Active(defs, from, None)| && Enters(Active(defs, from, None)[i].def, from, path)
                && Visited(Active(defs, from, None)[i].def, false, from.subs[path[0]], path[1..], deep)
  }

  /** The path leads first to the child of this definition, which the source holds. */
  predicate Enters(d: Def, from: Tree, path: Names) {
    path != [] && !d.Leaf? && d.ident == path[0] && path[0] in from.subs
  }

  predicate Present(t: Tree, path: Names) {
    path == [] || (path[0] in t.subs && Present(t.subs[path[0]], path[1..]))
  }

  // ---------- update ----------

  lemma {:induction false} AllowedPresent(d: Def, inList: bool, from: Tree, to: Tree, path: Names)
    requires (d.Container? || d.List?) && Allowed(Update, d, inList, from, to) && Visited(d, inList, from, path, false)
    ensures Present(to, path)
    decreases |path|
  {
    if path != [] {
      if d.List? && !inList {
        assert AdmitsRow(Update, path[0], to);
      } else {
        var items := Active(d.defs, from, None);
        var i :| 0 <= i < |items| && Enters(items[i].def, from, path)
                 && Visited(items[i].def, false, from.subs[path[0]], path[1..], false);
        var c, sub := items[i].def, from.subs[path[0]];
        assert AdmitsChild(Update, c, sub, to);
        NoChoiceActive(d.defs, from, None);
        ChildResult(Update, c, sub, to, false, false);
        AllowedPresent(c, false, sub, Sub(to, c.ident), path[1..]);
      }
    }
  }

  lemma {:induction false} NoChoiceActive(defs: seq<Def>, t: Tree, home: Option<Home>)
    ensures forall i :: 0 <= i < |Active(defs, t, home)| ==> !Active(defs, t, home)[i].def.Choice?
  {
    if defs != [] {
      NoChoiceActive(defs[1..], t, home);
      NoChoiceActiveOne(defs[0], t, home);
    }
  }

  lemma {:induction false} NoChoiceActiveOne(d: Def, t: Tree, home: Option<Home>)
    ensures forall i :: 0 <= i < |ActiveOne(d, t, home)| ==> !ActiveOne(d, t, home)[i].def.Choice?
  {
    if d.Choice? && Choose(d.cases, t).Some? {
      var c := Choose(d.cases, t).value;
      NoChoiceActive(d.cases[c].defs, t, Some(Home(d.cases, c)));
    }
  }

  lemma {:induction false} MissingPath(d: Def, inList: bool, from: Tree, to: Tree) returns (path: Names)
    requires (d.Container? || d.List?) && !Allowed(Update, d, inList, from, to)
    ensures Visited(d, inList, from, path, false) && !Present(to, path)
    decreases from
  {
    if d.List? && !inList {
      var k :| k in from.subs && !AdmitsRow(Update, k, to);
      path := [k];
    } else {
      var items := Active(d.defs, from, None);
      var i :| 0 <= i < |items| && !items[i].def.Leaf? && items[i].def.ident in from.subs
               && !AdmitsChild(Update, items[i].def, from.subs[items[i].def.ident], to);
      var c := items[i].def;
      NoChoiceActive(d.defs, from, None);
      ChildResult(Update, c, from.subs[c.ident], to, false, false);
      var more := [];
      if c.ident in to.subs {
        more := MissingPath(c, false, from.subs[c.ident], to.subs[c.ident]);
      }
      path := [c.ident] + more;
      assert path[1..] == more && Enters(c, from, path);
    }
  }

  /** An update succeeds exactly if the target holds every container, list or outermost item of the source visited. */
  lemma UpdateSucceeds(d: Def, inList: bool, from: Tree, to: Tree)
    requires d.Container? || d.List?
    ensures Allowed(Update, d, inList, from, to) <==>
              forall path :: Visited(d, inList, from, path, false) ==> Present(to, path)
  {
    hide Allowed, Visited, Present;
    if Allowed(Update, d, inList, from, to) {
      forall path | Visited(d, inList, from, path, false) ensures Present(to, path) {
        AllowedPresent(d, inList, from, to, path);
      }
    } else {
      var path := MissingPath(d, inList, from, to);
    }
  }

  /** The path stays outside of what is inside an item that the source holds. */
  ghost predicate Outer(d: Def, inList: bool, from: Tree, path: Names)
    decreases |path|
  {
    |path| <= 1 ||
    if d.List? && !inList then path[0] !in from.subs
    else (d.Container? || d.List?) ==>
           var items := Active(d.defs, from, None);
           forall i :: 0 <= i < |items| && Enters(items[i].def, from, path) ==>
             Outer(items[i].def, false, from.subs[path[0]], path[1..])
  }

  /** A name that the walk comes to no child of. */
  ghost predicate Unvisited(items: seq<Item>, from: Tree, n: string) {
    forall q :: 0 <= q < |items| ==> items[q].def.Leaf? || items[q].def.ident != n || n !in from.subs
  }

  lemma {:induction false} UpdateLeaves(items: seq<Item>, from: Tree, to: Tree, useDefault: bool, force: bool,
                                        n: string)
    requires Unvisited(items, from, n)
    ensures var after := EditedItems(Update, items, from, to, useDefault, force);
            (n in after.subs <==> n in to.subs) && (n in to.subs ==> after.subs[n] == to.subs[n])
    decreases |items|
  {
    if items != [] {
      var k := |items| - 1;
      UpdateLeaves(items[..k], from, to, useDefault, force, n);
      hide EditedChild, LeafValue;
    }
  }

  /** An update adds and removes none of them. */
  lemma {:induction false} UpdateKeeps(d: Def, inList: bool, from: Tree, to: Tree, created: bool, force: bool,
                                       path: Names)
    requires Enterable(d) && Allowed(Update, d, inList, from, to) && Outer(d, inList, from, path)
    ensures Present(Result(Update, d, inList, from, to, created, force), path) <==> Present(to, path)
    decreases |path|
  {
    if path != [] {
      if d.List? && !inList {
        assert forall k :: k in from.subs ==> AdmitsRow(Update, k, to);
      } else {
        UpdateKeepsChild(d, inList, from, to, created, force, path);
      }
    }
  }

  lemma {:induction false} UpdateKeepsChild(d: Def, inList: bool, from: Tree, to: Tree, created: bool, force: bool,
                                            path: Names)
    requires Enterable(d) && Allowed(Update, d, inList, from, to) && Outer(d, inList, from, path) && path != []
    requires d.List? ==> inList
    ensures Present(Result(Update, d, inList, from, to, created, force), path) <==> Present(to, path)
    decreases |path|, 0
  {
    var items, n := Active(d.defs, from, None), path[0];
    if i :| 0 <= i < |items| && Enters(items[i].def, from, path) {
      var c, sub := items[i].def, from.subs[n];
      ActivePlain(d.defs, from, None);
      EditedChildIs(Update, d.defs, from, to, created, force, i);
      assert AdmitsChild(Update, c, sub, to);
      ChildResult(Update, c, sub, to, n !in to.subs, force);
      assert |path| > 1 ==> Outer(c, false, sub, path[1..]);
      UpdateKeeps(c, false, sub, Sub(to, n), n !in to.subs, force, path[1..]);
    } else {
      assert Unvisited(items, from, n);
      UpdateLeaves(items, from, to, Defaults(Update, created, force), force, n);
    }
  }

  lemma VisitedIs(d: Def, inList: bool, from: Tree, path: Names, deep: bool)
    requires path != [] && (d.Container? || (d.List? && inList))
    ensures Visited(d, inList, from, path, deep) <==> VisitedChild(d.defs, from, path, deep)
  {
    hide VisitedChild;
  }

  // ---------- insert and upsert ----------

  /** An insert succeeds exactly if the target holds none of the containers, lists or items visited at the root. */
  lemma InsertSucceeds(d: Def, inList: bool, from: Tree, to: Tree)
    requires d.Container? || d.List?
    ensures Allowed(Insert, d, inList, from, to) <==>
              forall n: string :: Visited(d, inList, from, [n], false) ==> n !in to.subs
  {
    if d.List? && !inList {
      forall n: string ensures Visited(d, inList, from, [n], false) <==> n in from.subs {}
      assert Allowed(Insert, d, inList, from, to) <==> forall k :: k in from.subs ==> AdmitsRow(Insert, k, to);
    } else {
      var items := Active(d.defs, from, None);
      InsertConflict(d.defs, from, to);
      if n: string :| Visited(d, inList, from, [n], false) && n in to.subs {
        VisitedIs(d, inList, from, [n], false);
        var i :| 0 <= i < |items| && Enters(items[i].def, from, [n]);
        assert Clash(items, from, to, i);
      }
      if i: nat :| i < |items| && Clash(items, from, to, i) {
        assert Enters(items[i].def, from, [items[i].def.ident]) && [items[i].def.ident][1..] == [];
        assert Visited(items[i].def, false, from.subs[items[i].def.ident], [], false);
        VisitedIs(d, inList, from, [items[i].def.ident], false);
      }
    }
  }

  lemma UpsertSucceeds(d: Def, inList: bool, from: Tree, to: Tree)
    requires d.Container? || d.List?
    ensures Allowed(Upsert, d, inList, from, to)
  {
    if d.Container? || inList {
      UpsertAdmits(d.defs, from, to);
    }
  }

  /** At a list the keys decide, and become those of both. */
  lemma ListKeys(st: Strategy, d: Def, from: Tree, to: Tree, force: bool)
    requires d.List?
    ensures Allowed(st, d, false, from, to) <==>
              match st
              case Upsert => true
              case Insert => from.subs.Keys !! to.subs.Keys
              case Update => from.subs.Keys <= to.subs.Keys
    ensures Result(st, d, false, from, to, false, force).subs.Keys == to.subs.Keys + from.subs.Keys
  {
    hide Edited;
    assert Allowed(st, d, false, from, to) <==> forall k :: k in from.subs ==> AdmitsRow(st, k, to);
    assert forall k :: AdmitsRow(st, k, to) <==> (st.Insert? ==> k !in to.subs) && (st.Update? ==> k in to.subs);
  }

  // ---------- what is entered ----------

  /** The paths of all containers, lists and items that a walk over the source enters below the one at `at`. */
  ghost function BelowNode(d: Def, inList: bool, from: Tree, at: Names): set<Names>
    decreases from, 3
  {
    match d
    case Container(_, defs) => BelowItems(Active(defs, from, None), from, at)
    case List(_, defs) =>
      if inList then BelowItems(Active(defs, from, None), from, at) else BelowRows(d, from, from.subs.Keys, at)
    case _ => {}
  }

  ghost function BelowItems(items: seq<Item>, from: Tree, at: Names): set<Names>
    decreases from, 2, |items|
  {
    if items == [] then {} else
      BelowItems(items[..|items| - 1], from, at) + BelowItem(items[|items| - 1], from, at)
  }

  ghost function BelowItem(it: Item, from: Tree, at: Names): set<Names>
    decreases from, 1
  {
    var id := it.def.ident;
    if !it.def.Leaf? && id in from.subs then {at + [id]} + BelowNode(it.def, false, from.subs[id], at + [id]) else {}
  }

  ghost function BelowRows(d: Def, from: Tree, keys: set<string>, at: Names): set<Names>
    decreases from, 2
  {
    set k, q | k in keys && k in from.subs && q in BelowRow(d, from, k, at) :: q
  }

  ghost function BelowRow(d: Def, from: Tree, k: string, at: Names): set<Names>
    requires k in from.subs
    decreases from, 1
  {
    {at + [k]} + BelowNode(d, true, from.subs[k], at + [k])
  }

  /** Those are exactly the ones visited, at any depth. */
  lemma {:induction false} BelowIs(d: Def, inList: bool, from: Tree, at: Names, q: Names)
    ensures q in BelowNode(d, inList, from, at) <==>
              |at| < |q| && at == q[..|at|] && Visited(d, inList, from, q[|at|..], true)
    decreases from, 3
  {
    match d {
      case Container(_, defs) => BelowItemsAre(d, inList, from, at, q);
      case List(_, defs) =>
        if inList {
          BelowItemsAre(d, inList, from, at, q);
        } else {
          forall k | k in from.subs
            ensures q in BelowRow(d, from, k, at) <==>
                      |at| < |q| && at == q[..|at|] && q[|at|] == k
                      && (|q| == |at| + 1 || Visited(d, true, from.subs[k], q[|at| + 1..], true))
          {
            BelowIs(d, true, from.subs[k], at + [k], q);
            Step(q, at, k);
          }
          if |at| < |q| {
            assert q[|at|..][1..] == q[|at| + 1..] && q[|at|..][0] == q[|at|];
          }
        }
      case _ =>
    }
  }

  lemma Step(q: Names, at: Names, k: string)
    ensures q == at + [k] <==> |q| == |at| + 1 && at == q[..|at|] && q[|at|] == k
    ensures |at + [k]| < |q| && at + [k] == q[..|at + [k]|] <==>
              |at| + 1 < |q| && at == q[..|at|] && q[|at|] == k
  {
    if |at| < |q| {
      assert q[..|at| + 1] == q[..|at|] + [q[|at|]];
    }
  }

  lemma {:induction false} BelowItemsAre(d: Def, inList: bool, from: Tree, at: Names, q: Names)
    requires d.Container? || (d.List? && inList)
    ensures q in BelowItems(Active(d.defs, from, None), from, at) <==>
              |at| < |q| && at == q[..|at|] && Visited(d, inList, from, q[|at|..], true)
    decreases from, 2
  {
    var items := Active(d.defs, from, None);
    forall i | 0 <= i < |items|
      ensures q in BelowItem(items[i], from, at) <==>
                |at| < |q| && at == q[..|at|] && Enters(items[i].def, from, q[|at|..])
                && Visited(items[i].def, false, from.subs[q[|at|]], q[|at| + 1..], true)
    {
      BelowItemIs(items[i], from, at, q);
    }
    InBelow(items, from, at, q);
    if |at| < |q| {
      VisitedIs(d, inList, from, q[|at|..], true);
      assert q[|at|..][1..] == q[|at| + 1..] && q[|at|..][0] == q[|at|];
    }
  }

  lemma {:induction false} BelowItemIs(it: Item, from: Tree, at: Names, q: Names)
    ensures q in BelowItem(it, from, at) <==>
              |at| < |q| && at == q[..|at|] && Enters(it.def, from, q[|at|..])
              && Visited(it.def, false, from.subs[q[|at|]], q[|at| + 1..], true)
    decreases from, 1
  {
    var id := it.def.ident;
    if !it.def.Leaf? && id in from.subs {
      BelowIs(it.def, false, from.subs[id], at + [id], q);
      Step(q, at, id);
    }
  }

  lemma {:induction false} InBelow(items: seq<Item>, from: Tree, at: Names, q: Names)
    ensures q in BelowItems(items, from, at) <==> exists i :: 0 <= i < |items| && q in BelowItem(items[i], from, at)
    decreases |items|
  {
    if items != [] {
      var n := |items| - 1;
      InBelow(items[..n], from, at, q);
    }
  }

  lemma BelowStarts(it: Item, from: Tree, at: Names, q: Names)
    requires q in BelowItem(it, from, at)
    ensures |at| < |q| && at == q[..|at|] && q[|at|] == it.def.ident
  {
    BelowItemIs(it, from, at, q);
  }

  lemma NotBelow(d: Def, inList: bool, from: Tree, at: Names)
    ensures at !in BelowNode(d, inList, from, at)
  {
    BelowIs(d, inList, from, at, at);
  }

  /** Different definitions have different nodes below. */
  lemma ItemsApart(items: seq<Item>, n: nat, from: Tree, at: Names)
    requires n < |items| && PlainItems(items)
    ensures BelowItems(items[..0], from, at) == {}
    ensures BelowItems(items[..n], from, at) !! BelowItem(items[n], from, at)
    ensures BelowItems(items[..n + 1], from, at) == BelowItems(items[..n], from, at) + BelowItem(items[n], from, at)
  {
    assert items[..n + 1][..n] == items[..n];
    forall q | q in BelowItems(items[..n], from, at) ensures q !in BelowItem(items[n], from, at) {
      InBelow(items[..n], from, at, q);
      var i :| 0 <= i < n && q in BelowItem(items[..n][i], from, at);
      BelowStarts(items[i], from, at, q);
      if q in BelowItem(items[n], from, at) {
        BelowStarts(items[n], from, at, q);
      }
    }
  }

  lemma RowsApart(d: Def, from: Tree, done: set<string>, k: string, at: Names)
    requires k in from.subs && k !in done && done <= from.subs.Keys
    ensures BelowRows(d, from, {}, at) == {}
    ensures BelowRows(d, from, done, at) !! BelowRow(d, from, k, at)
    ensures BelowRows(d, from, done + {k}, at) == BelowRows(d, from, done, at) + BelowRow(d, from, k, at)
  {
    forall q | q in BelowRows(d, from, done, at) ensures q !in BelowRow(d, from, k, at) {
      var j :| j in done && j in from.subs && q in BelowRow(d, from, j, at);
      RowStarts(d, from, j, at, q);
      if q in BelowRow(d, from, k, at) {
        RowStarts(d, from, k, at, q);
      }
    }
  }

  lemma RowStarts(d: Def, from: Tree, k: string, at: Names, q: Names)
    requires k in from.subs && q in BelowRow(d, from, k, at)
    ensures |at| < |q| && q[|at|] == k
  {
    BelowIs(d, true, from.subs[k], at + [k], q);
    Step(q, at, k);
  }

  /** What is below a node, by what it is. */
  lemma BelowParts(d: Def, inList: bool, from: Tree, at: Names)
    requires d.Container? || d.List?
    ensures BelowNode(d, inList, from, at) ==
            if d.List? && !inList then BelowRows(d, from, from.subs.Keys, at)
            else BelowItems(Active(d.defs, from, None), from, at)
  {
  }
}
