/** Laws of the merge: what an edit keeps, what it overwrites, and that an upsert done twice is done once. */
module EditLaws {
  import opened Wrappers
  import opened DataSchema
  import opened SchemaNames
  import opened EditSpec
  import opened EditStep

  // ---------- looking a written name up ----------

  lemma {:induction false} WrittenLeafAt(items: seq<Item>, from: Tree, useDefault: bool, i: nat)
    requires ItemsOk(items, from) && i < |items| && items[i].def.Leaf? && Contributes(items[i], from, useDefault)
    ensures items[i].def.ident in WrittenLeafs(items, from, useDefault)
    ensures WrittenLeafs(items, from, useDefault)[items[i].def.ident] == LeafValue(items[i].def, from, useDefault).value
    decreases |items|
  {
    var n := |items| - 1;
    if i < n {
      var init := items[..n];
      assert ItemsOk(init, from) by { ItemsOkInit(items, from); }
      WrittenLeafAt(init, from, useDefault, i);
      assert Apart(items[i], items[n]);
    }
  }

  lemma ItemsOkInit(items: seq<Item>, from: Tree)
    requires ItemsOk(items, from) && items != []
    ensures ItemsOk(items[..|items| - 1], from)
  {
    var init := items[..|items| - 1];
    assert forall q :: 0 <= q < |init| ==> init[q] == items[q];
  }

  lemma {:induction false} WrittenSubAt(st: Strategy, items: seq<Item>, from: Tree, to: Tree, force: bool, i: nat)
    requires ItemsOk(items, from) && i < |items| && !items[i].def.Leaf? && items[i].def.ident in from.subs
    ensures items[i].def.ident in WrittenSubs(st, items, from, to, force)
    ensures var id := items[i].def.ident;
            WrittenSubs(st, items, from, to, force)[id]
              == MergeSub(st, items[i].def, from.subs[id], Sub(to, id), id !in to.subs, force)
    decreases |items|
  {
    var n := |items| - 1;
    if i < n {
      var init := items[..n];
      assert ItemsOk(init, from) by { ItemsOkInit(items, from); }
      WrittenSubAt(st, init, from, to, force, i);
      assert Apart(items[i], items[n]);
    }
  }

  /**
    What an edit leaves in a leaf of a container that the walk visits: the source's value, else the default if an
    insert or upsert created the container (or defaults are forced), else the old value or none.
  */
  lemma MergedLeaf(st: Strategy, defs: seq<Def>, from: Tree, to: Tree, created: bool, force: bool, i: nat)
    requires Plain(defs) && i < |Active(defs, from, None)| && Active(defs, from, None)[i].def.Leaf?
    ensures var d := Active(defs, from, None)[i].def;
            var filled := (created && st != Update) || force;
            var merged := Merge(st, defs, from, to, created, force);
            && (d.ident in from.leafs ==> d.ident in merged.leafs && merged.leafs[d.ident] == from.leafs[d.ident])
            && (d.ident !in from.leafs && filled && d.default.Some? ==>
                  d.ident in merged.leafs && merged.leafs[d.ident] == d.default.value)
            && (d.ident !in from.leafs && (!filled || d.default.None?) ==>
                  (d.ident in merged.leafs <==> d.ident in to.leafs)
                  && (d.ident in to.leafs ==> merged.leafs[d.ident] == to.leafs[d.ident]))
  {
    var items := Active(defs, from, None);
    var id := items[i].def.ident;
    var u := Defaults(st, created, force);
    ActiveOk(defs, from, None);
    if Contributes(items[i], from, u) {
      WrittenLeafAt(items, from, u, i);
    } else {
      WrittenLeafKeys(items, from, u, id);
      forall q | 0 <= q < |items| && q != i ensures items[q].def.ident != id {
        if q < i {
          assert Apart(items[q], items[i]);
        } else {
          assert Apart(items[i], items[q]);
        }
      }
      VisitedNotDropped(st, items, from, to, u, i);
    }
  }

  /** A name the walk visits is never one that it drops. */
  lemma VisitedNotDropped(st: Strategy, items: seq<Item>, from: Tree, to: Tree, useDefault: bool, i: nat)
    requires ItemsOk(items, from) && i < |items|
    ensures items[i].def.ident !in Dropped(st, items, from, to, useDefault)
  {
    forall q | 0 <= q < |items| ensures items[i].def.ident !in DroppedBy(st, items[q], from, to, useDefault) {
      DroppedInOthers(st, items[q], from, to, useDefault);
      if q < i {
        assert Apart(items[q], items[i]);
      } else if i < q {
        assert Apart(items[i], items[q]);
      } else {
        assert ItemOk(items[i], from);
      }
    }
  }

  /** The walk comes to a container or list of this name. */
  ghost predicate Visits(items: seq<Item>, id: string) {
    exists i :: 0 <= i < |items| && !items[i].def.Leaf? && items[i].def.ident == id
  }

  lemma WrittenIfVisited(st: Strategy, defs: seq<Def>, from: Tree, to: Tree, force: bool, id: string)
    requires Plain(defs)
    ensures var items := Active(defs, from, None);
            id in WrittenSubs(st, items, from, to, force) <==> id in from.subs && Visits(items, id)
  {
    var items := Active(defs, from, None);
    ActiveOk(defs, from, None);
    WrittenSubKeys(st, items, from, to, force, id);
    if id in from.subs && Visits(items, id) {
      var i :| 0 <= i < |items| && !items[i].def.Leaf? && items[i].def.ident == id;
      WrittenSubAt(st, items, from, to, force, i);
    }
  }

  /**
    The children after an upsert: those of the target that are not dropped, and those of the source that are visited.
  */
  lemma UpsertChildren(defs: seq<Def>, from: Tree, to: Tree, created: bool, force: bool, id: string)
    requires Plain(defs)
    ensures var items := Active(defs, from, None);
            var merged := Merge(Upsert, defs, from, to, created, force);
            id in merged.subs <==>
              || (id in to.subs && id !in Dropped(Upsert, items, from, to, Defaults(Upsert, created, force)))
              || (id in from.subs && Visits(items, id))
  {
    WrittenIfVisited(Upsert, defs, from, to, force, id);
    hide WrittenSubs, Dropped, Active, Plain, Visits, WrittenLeafs;
  }

  /** And every child that both hold, or only the source, is merged in turn. */
  lemma UpsertChild(defs: seq<Def>, from: Tree, to: Tree, created: bool, force: bool, i: nat)
    requires Plain(defs) && i < |Active(defs, from, None)|
    requires var d := Active(defs, from, None)[i].def; !d.Leaf? && d.ident in from.subs
    ensures var d := Active(defs, from, None)[i].def;
            var merged := Merge(Upsert, defs, from, to, created, force);
            d.ident in merged.subs
            && merged.subs[d.ident] == MergeSub(Upsert, d, from.subs[d.ident], Sub(to, d.ident), d.ident !in to.subs,
                                                force)
  {
    ActiveOk(defs, from, None);
    WrittenSubAt(Upsert, Active(defs, from, None), from, to, force, i);
    hide WrittenSubs, Dropped, Active, Plain, WrittenLeafs, ItemsOk, MergeSub;
  }

  // ---------- an upsert keeps at most one case of every choice ----------

  /**
    The definitions `defs`, of which `items` are visited and perhaps others: each visited name of theirs is visited as
    they define it, and in the choice that they define it in.
  */
  ghost predicate Tells(items: seq<Item>, defs: seq<Def>) {
    defs == [] || (TellsOne(items, defs[0]) && Tells(items, defs[1..]))
  }

  ghost predicate TellsOne(items: seq<Item>, d: Def) {
    if d.Choice? then
      d.ident !in Idents(items) && OfChoice(items, d.cases) && TellsCases(items, d.cases)
    else forall i :: 0 <= i < |items| && items[i].def.ident == d.ident ==> items[i].def == d
  }

  ghost predicate TellsCases(items: seq<Item>, cases: seq<Case>) {
    cases == [] || (Tells(items, cases[0].defs) && TellsCases(items, cases[1..]))
  }

  ghost predicate OfChoice(items: seq<Item>, cases: seq<Case>) {
    forall i :: 0 <= i < |items| && items[i].def.ident in DirectNames(cases) ==>
      items[i].home.Some? && items[i].home.value.cases == cases
  }

  lemma {:induction false} TellsOff(items: seq<Item>, defs: seq<Def>)
    requires Idents(items) !! LevelNames(defs)
    ensures Tells(items, defs)
  {
    if defs != [] {
      LevelParts(defs);
      TellsOff(items, defs[1..]);
      TellsOffOne(items, defs[0]);
    }
  }

  lemma {:induction false} TellsOffOne(items: seq<Item>, d: Def)
    requires Idents(items) !! LevelOne(d)
    ensures TellsOne(items, d)
  {
    LevelParts([d]);
    if d.Choice? {
      DirectInLevel(d.cases);
      TellsOffCases(items, d.cases);
    }
    forall i | 0 <= i < |items| ensures items[i].def.ident !in LevelOne(d) {
      assert items[i].def.ident in Idents(items);
    }
  }

  lemma {:induction false} TellsOffCases(items: seq<Item>, cases: seq<Case>)
    requires Idents(items) !! LevelCases(cases)
    ensures TellsCases(items, cases)
  {
    if cases != [] {
      TellsOff(items, cases[0].defs);
      TellsOffCases(items, cases[1..]);
    }
  }

  lemma {:induction false} TellsBoth(a: seq<Item>, b: seq<Item>, defs: seq<Def>)
    requires Tells(a, defs) && Tells(b, defs)
    ensures Tells(a + b, defs)
  {
    if defs != [] {
      TellsBothOne(a, b, defs[0]);
      TellsBoth(a, b, defs[1..]);
    }
  }

  lemma {:induction false} TellsBothOne(a: seq<Item>, b: seq<Item>, d: Def)
    requires TellsOne(a, d) && TellsOne(b, d)
    ensures TellsOne(a + b, d)
  {
    IdentsAppend(a, b);
    if d.Choice? {
      TellsBothCases(a, b, d.cases);
    }
  }

  lemma {:induction false} TellsBothCases(a: seq<Item>, b: seq<Item>, cases: seq<Case>)
    requires TellsCases(a, cases) && TellsCases(b, cases)
    ensures TellsCases(a + b, cases)
  {
    if cases != [] {
      TellsBoth(a, b, cases[0].defs);
      TellsBothCases(a, b, cases[1..]);
    }
  }

  lemma {:induction false} ActiveTells(defs: seq<Def>, t: Tree, home: Option<Home>)
    requires Plain(defs) && Homely(defs, home, t)
    ensures Tells(Active(defs, t, home), defs)
  {
    if defs != [] {
      var first, rest := ActiveOne(defs[0], t, home), Active(defs[1..], t, home);
      HomelyParts(defs, home, t);
      LevelParts(defs);
      ActiveOneTells(defs[0], t, home);
      ActiveTells(defs[1..], t, home);
      ActiveOneNames(defs[0], t, home);
      ActiveNames(defs[1..], t, home);
      TellsOffOne(rest, defs[0]);
      TellsBothOne(first, rest, defs[0]);
      TellsOff(first, defs[1..]);
      TellsBoth(first, rest, defs[1..]);
    }
  }

  lemma {:induction false} ActiveOneTells(d: Def, t: Tree, home: Option<Home>)
    requires PlainOne(d) && Homely([d], home, t)
    ensures TellsOne(ActiveOne(d, t, home), d)
  {
    var items := ActiveOne(d, t, home);
    if !d.Choice? {
      assert items == [Item(d, home)];
    } else if Choose(d.cases, t).None? {
      TellsOffOne([], d);
    } else {
      var inner := Home(d.cases, Choose(d.cases, t).value);
      var mine := d.cases[inner.mine].defs;
      CasePlain(d.cases, inner.mine);
      OthersApart(inner);
      ActiveTells(mine, t, Some(inner));
      ActiveNames(mine, t, Some(inner));
      ActiveOk(mine, t, Some(inner));
      assert OfChoice(items, d.cases) by {
        forall i | 0 <= i < |items| && items[i].def.ident in DirectNames(d.cases) ensures items[i].home == Some(inner) {
          assert Below(items[i], LevelNames(mine), Some(inner));
        }
      }
      ChosenTells(items, d.cases, inner.mine);
    }
  }

  lemma {:induction false} ChosenTells(items: seq<Item>, cases: seq<Case>, c: nat)
    requires PlainCases(cases) && c < |cases| && Idents(items) <= LevelNames(cases[c].defs)
             && Tells(items, cases[c].defs)
    ensures TellsCases(items, cases)
  {
    if c == 0 {
      TellsOffCases(items, cases[1..]);
    } else {
      CaseInLevel(cases[1..], c - 1);
      TellsOff(items, cases[0].defs);
      ChosenTells(items, cases[1..], c - 1);
    }
  }

  /**
    After an upsert every choice of the container, however deeply nested in cases, still has one case with data at
    most.
  */
  lemma OneCaseKept(defs: seq<Def>, from: Tree, to: Tree, created: bool, force: bool)
    requires Plain(defs) && ChoicesOk(defs, to)
    ensures ChoicesOk(defs, Merge(Upsert, defs, from, to, created, force))
  {
    ActiveOk(defs, from, None);
    ActiveTells(defs, from, None);
    ChoicesKept(Active(defs, from, None), from, to, Defaults(Upsert, created, force), force, defs);
  }

  lemma {:induction false} ChoicesKept(items: seq<Item>, from: Tree, to: Tree, useDefault: bool, force: bool,
                                       defs: seq<Def>)
    requires ItemsOk(items, from) && Tells(items, defs) && ChoicesOk(defs, to)
    ensures ChoicesOk(defs, MergeItems(Upsert, items, from, to, useDefault, force))
  {
    if defs != [] {
      ChoicesKept(items, from, to, useDefault, force, defs[1..]);
      if defs[0].Choice? {
        ChoiceKept(items, from, to, useDefault, force, defs[0]);
      }
    }
  }

  lemma {:induction false} ChoiceKept(items: seq<Item>, from: Tree, to: Tree, useDefault: bool, force: bool, d: Def)
    requires ItemsOk(items, from) && d.Choice? && TellsOne(items, d) && ChoiceOk(d, to)
    ensures ChoiceOk(d, MergeItems(Upsert, items, from, to, useDefault, force))
  {
    PopulatedAfter(Upsert, items, from, to, useDefault, force, d.ident);
    CasesKept(items, from, to, useDefault, force, d.cases);
    ChoiceIsFair(d, to);
    if i :| 0 <= i < |items| && Contributes(items[i], from, useDefault) && items[i].home.Some?
            && items[i].home.value.cases == d.cases
    {
      OnlyMine(items, from, to, useDefault, force, i);
    } else {
      UntouchedChoice(items, from, to, useDefault, force, d.cases);
    }
  }

  lemma {:induction false} CasesKept(items: seq<Item>, from: Tree, to: Tree, useDefault: bool, force: bool,
                                     cases: seq<Case>)
    requires ItemsOk(items, from) && TellsCases(items, cases) && CasesOk(cases, to)
    ensures CasesOk(cases, MergeItems(Upsert, items, from, to, useDefault, force))
  {
    if cases != [] {
      ChoicesKept(items, from, to, useDefault, force, cases[0].defs);
      CasesKept(items, from, to, useDefault, force, cases[1..]);
    }
  }

  lemma OnlyMine(items: seq<Item>, from: Tree, to: Tree, useDefault: bool, force: bool, i: nat)
    requires ItemsOk(items, from) && i < |items| && items[i].home.Some? && Contributes(items[i], from, useDefault)
    requires Fair(items[i].home.value.cases, to)
    ensures OneCase(items[i].home.value.cases, MergeItems(Upsert, items, from, to, useDefault, force))
    ensures items[i].home.value.mine < |items[i].home.value.cases|
    ensures HasData(items[i].home.value.cases[items[i].home.value.mine],
                    MergeItems(Upsert, items, from, to, useDefault, force))
  {
    var h := items[i].home.value;
    var merged := MergeItems(Upsert, items, from, to, useDefault, force);
    assert ItemOk(items[i], from);
    forall j | 0 <= j < |h.cases| && j != h.mine ensures !HasData(h.cases[j], merged) {
      forall k | 0 <= k < |h.cases[j].defs| ensures !Populated(merged, h.cases[j].defs[k].ident) {
        OtherCaseGone(Upsert, items, from, to, useDefault, force, i, j, k);
      }
    }
    var k :| 0 <= k < |h.cases[h.mine].defs| && h.cases[h.mine].defs[k] == items[i].def;
    PopulatedAfter(Upsert, items, from, to, useDefault, force, items[i].def.ident);
  }

  lemma UntouchedChoice(items: seq<Item>, from: Tree, to: Tree, useDefault: bool, force: bool, cases: seq<Case>)
    requires OfChoice(items, cases) && OneCase(cases, to)
    requires forall i :: 0 <= i < |items| && Contributes(items[i], from, useDefault) ==>
               !(items[i].home.Some? && items[i].home.value.cases == cases)
    ensures OneCase(cases, MergeItems(Upsert, items, from, to, useDefault, force))
  {
    var merged := MergeItems(Upsert, items, from, to, useDefault, force);
    forall j, k | 0 <= j < |cases| && 0 <= k < |cases[j].defs|
      ensures Populated(merged, cases[j].defs[k].ident) ==> Populated(to, cases[j].defs[k].ident)
    {
      CaseInLevel(cases, j);
      assert cases[j].defs[k].ident in Names(cases[j].defs);
      PopulatedAfter(Upsert, items, from, to, useDefault, force, cases[j].defs[k].ident);
    }
  }

  lemma {:induction false} UpsertKeepsProper(defs: seq<Def>, from: Tree, to: Tree, created: bool, force: bool)
    requires Plain(defs) && Proper(defs, to)
    ensures Proper(defs, Merge(Upsert, defs, from, to, created, force))
    decreases from, 2
  {
    OneCaseKept(defs, from, to, created, force);
    ActiveOk(defs, from, None);
    ActiveTells(defs, from, None);
    SubsKept(Active(defs, from, None), from, to, Defaults(Upsert, created, force), force, defs);
  }

  lemma {:induction false} SubsKept(items: seq<Item>, from: Tree, to: Tree, useDefault: bool, force: bool,
                                    defs: seq<Def>)
    requires ItemsOk(items, from) && Plain(defs) && Tells(items, defs) && SubsProper(defs, to)
    ensures SubsProper(defs, MergeItems(Upsert, items, from, to, useDefault, force))
    decreases from, 1, defs
  {
    if defs != [] {
      SubKept(items, from, to, useDefault, force, defs[0]);
      SubsKept(items, from, to, useDefault, force, defs[1..]);
    }
  }

  lemma {:induction false} SubKept(items: seq<Item>, from: Tree, to: Tree, useDefault: bool, force: bool, d: Def)
    requires ItemsOk(items, from) && PlainOne(d) && TellsOne(items, d) && SubProper(d, to)
    ensures SubProper(d, MergeItems(Upsert, items, from, to, useDefault, force))
    decreases from, 1, d
  {
    var id := d.ident;
    if d.Choice? {
      SubsOfCasesKept(items, from, to, useDefault, force, d.cases);
    } else {
      WrittenSubKeys(Upsert, items, from, to, force, id);
      if q :| 0 <= q < |items| && !items[q].def.Leaf? && id in from.subs && items[q].def.ident == id {
        WrittenSubAt(Upsert, items, from, to, force, q);
        UpsertKeepsProperSub(d, from.subs[id], Sub(to, id), id !in to.subs, force);
      }
    }
  }

  lemma {:induction false} SubsOfCasesKept(items: seq<Item>, from: Tree, to: Tree, useDefault: bool, force: bool,
                                           cases: seq<Case>)
    requires ItemsOk(items, from) && PlainCases(cases) && TellsCases(items, cases) && CasesProper(cases, to)
    ensures CasesProper(cases, MergeItems(Upsert, items, from, to, useDefault, force))
    decreases from, 1, cases
  {
    if cases != [] {
      SubsKept(items, from, to, useDefault, force, cases[0].defs);
      SubsOfCasesKept(items, from, to, useDefault, force, cases[1..]);
    }
  }

  lemma {:induction false} UpsertKeepsProperSub(d: Def, from: Tree, to: Tree, created: bool, force: bool)
    requires PlainOne(d) && (ProperSub(d, to) || to == EMPTY)
    ensures ProperSub(d, MergeSub(Upsert, d, from, to, created, force))
    decreases from, 3
  {
    match d
    case Container(_, defs) =>
      EmptyIsProper(defs);
      UpsertKeepsProper(defs, from, to, created, force);
    case List(_, defs) =>
      EmptyIsProper(defs);
      forall k | k in from.subs
        ensures Proper(defs, Merge(Upsert, defs, from.subs[k], Sub(to, k), k !in to.subs, force))
      {
        UpsertKeepsProper(defs, from.subs[k], Sub(to, k), k !in to.subs, force);
      }
    case _ =>
  }

  // ---------- an upsert done twice is done once ----------

  lemma {:induction false} UpsertIdempotent(defs: seq<Def>, from: Tree, to: Tree, created: bool, force: bool)
    requires Plain(defs) && Proper(defs, to)
    ensures var once := Merge(Upsert, defs, from, to, created, force);
            Merge(Upsert, defs, from, once, false, force) == once
    decreases from, 2
  {
    var once := Merge(Upsert, defs, from, to, created, force);
    var items := Active(defs, from, None);
    var u := Defaults(Upsert, created, force);
    ActiveOk(defs, from, None);
    HomesOk(defs, from, to, None);
    NothingLeftToDrop(defs, from, to, created, force);
    SameLeafs(items, from, to, u, force);
    SameSubs(defs, from, to, created, force);
    assert once.leafs - {} == once.leafs && once.subs - {} == once.subs;
  }

  lemma NothingLeftToDrop(defs: seq<Def>, from: Tree, to: Tree, created: bool, force: bool)
    requires Plain(defs) && ChoicesOk(defs, to)
    ensures Dropped(Upsert, Active(defs, from, None), from, Merge(Upsert, defs, from, to, created, force),
                    Defaults(Upsert, false, force)) == {}
  {
    var items := Active(defs, from, None);
    var once := Merge(Upsert, defs, from, to, created, force);
    var u := Defaults(Upsert, created, force);
    ActiveOk(defs, from, None);
    HomesOk(defs, from, to, None);
    forall i | 0 <= i < |items| ensures DroppedBy(Upsert, items[i], from, once, Defaults(Upsert, false, force)) == {} {
      if items[i].home.Some? && Contributes(items[i], from, Defaults(Upsert, false, force)) {
        assert Contributes(items[i], from, u);
        OnlyMine(items, from, to, u, force, i);
      }
    }
  }

  lemma SameLeafs(items: seq<Item>, from: Tree, to: Tree, useDefault: bool, force: bool)
    requires ItemsOk(items, from) && (force ==> useDefault)
    ensures var once := MergeItems(Upsert, items, from, to, useDefault, force);
            once.leafs + WrittenLeafs(items, from, force) == once.leafs
  {
    var once := MergeItems(Upsert, items, from, to, useDefault, force);
    forall n | n in WrittenLeafs(items, from, force)
      ensures n in once.leafs && once.leafs[n] == WrittenLeafs(items, from, force)[n]
    {
      WrittenLeafKeys(items, from, force, n);
      var i :| 0 <= i < |items| && items[i].def.Leaf? && Contributes(items[i], from, force) && items[i].def.ident == n;
      WrittenLeafAt(items, from, force, i);
      WrittenLeafAt(items, from, useDefault, i);
    }
  }

  lemma {:induction false} SameSubs(defs: seq<Def>, from: Tree, to: Tree, created: bool, force: bool)
    requires Plain(defs) && Proper(defs, to)
    ensures var once := Merge(Upsert, defs, from, to, created, force);
            once.subs + WrittenSubs(Upsert, Active(defs, from, None), from, once, force) == once.subs
    decreases from, 1
  {
    var items := Active(defs, from, None);
    var once := Merge(Upsert, defs, from, to, created, force);
    var again := WrittenSubs(Upsert, items, from, once, force);
    forall n | n in again ensures n in once.subs && once.subs[n] == again[n] {
      WrittenSubKeys(Upsert, items, from, once, force, n);
      var i :| 0 <= i < |items| && !items[i].def.Leaf? && items[i].def.ident in from.subs && items[i].def.ident == n;
      SameSubAt(defs, from, to, created, force, i);
    }
  }

  lemma {:induction false} SameSubAt(defs: seq<Def>, from: Tree, to: Tree, created: bool, force: bool, i: nat)
    requires Plain(defs) && Proper(defs, to)
    requires i < |Active(defs, from, None)| && !Active(defs, from, None)[i].def.Leaf?
             && Active(defs, from, None)[i].def.ident in from.subs
    ensures var items := Active(defs, from, None);
            var once := Merge(Upsert, defs, from, to, created, force);
            var again := WrittenSubs(Upsert, items, from, once, force);
            var n := items[i].def.ident;
            n in again && n in once.subs && once.subs[n] == again[n]
    decreases from, 0
  {
    var items := Active(defs, from, None);
    var once := Merge(Upsert, defs, from, to, created, force);
    var d := items[i].def;
    var n := d.ident;
    ActiveOk(defs, from, None);
    ActivePlain(defs, from, None);
    ActiveProper(defs, from, to, None);
    WrittenSubAt(Upsert, items, from, once, force, i);
    WrittenSubAt(Upsert, items, from, to, force, i);
    SubIdempotent(d, from.subs[n], Sub(to, n), n !in to.subs, force);
  }

  lemma {:induction false} SubIdempotent(d: Def, from: Tree, to: Tree, created: bool, force: bool)
    requires PlainOne(d) && (ProperSub(d, to) || to == EMPTY)
    ensures var once := MergeSub(Upsert, d, from, to, created, force);
            MergeSub(Upsert, d, from, once, false, force) == once
    decreases from, 3
  {
    match d
    case Container(_, defs) =>
      EmptyIsProper(defs);
      UpsertIdempotent(defs, from, to, created, force);
    case List(_, defs) =>
      RowsIdempotent(defs, from, to, force);
    case _ =>
  }

  lemma {:induction false} RowsIdempotent(defs: seq<Def>, from: Tree, to: Tree, force: bool)
    requires Plain(defs) && forall k :: k in to.subs ==> Proper(defs, to.subs[k])
    ensures var once := MergeRows(defs, from, to, force);
            MergeRows(defs, from, once, force) == once
    decreases from, 2
  {
    EmptyIsProper(defs);
    hide Proper, Plain, Merge;
    var once := MergeRows(defs, from, to, force);
    forall k | k in from.subs
      ensures k in once.subs && Merge(Upsert, defs, from.subs[k], once.subs[k], false, force) == once.subs[k]
    {
      UpsertIdempotent(defs, from.subs[k], Sub(to, k), k !in to.subs, force);
    }
    assert MergeRows(defs, from, once, force).subs == once.subs;
  }

  // ---------- switching to another case ----------

  /** Writing to one case of a choice leaves no other one with data. */
  lemma CaseSwitched(defs: seq<Def>, from: Tree, to: Tree, created: bool, force: bool, i: nat, j: nat)
    requires Plain(defs) && ChoicesOk(defs, to) && i < |Active(defs, from, None)|
    requires Active(defs, from, None)[i].home.Some?
    requires Contributes(Active(defs, from, None)[i], from, Defaults(Upsert, created, force))
    requires var h := Active(defs, from, None)[i].home.value; j < |h.cases| && j != h.mine
    ensures var h := Active(defs, from, None)[i].home.value;
            var merged := Merge(Upsert, defs, from, to, created, force);
            h.mine < |h.cases| && HasData(h.cases[h.mine], merged) && !HasData(h.cases[j], merged)
  {
    ActiveOk(defs, from, None);
    HomesOk(defs, from, to, None);
    OnlyMine(Active(defs, from, None), from, to, Defaults(Upsert, created, force), force, i);
  }

  /**
    What exactly it leaves of another case, names nested in choices included: all if the case itself holds no data, else
    what a walk over the target does not visit.
  */
  lemma CaseCleared(defs: seq<Def>, from: Tree, to: Tree, created: bool, force: bool, i: nat, j: nat, n: string)
    requires Plain(defs) && ChoicesOk(defs, to) && i < |Active(defs, from, None)|
    requires Active(defs, from, None)[i].home.Some?
    requires Contributes(Active(defs, from, None)[i], from, Defaults(Upsert, created, force))
    requires var h := Active(defs, from, None)[i].home.value;
             j < |h.cases| && j != h.mine && n in LevelNames(h.cases[j].defs)
    ensures var h := Active(defs, from, None)[i].home.value;
            Populated(Merge(Upsert, defs, from, to, created, force), n) <==>
              Populated(to, n) && !(HasData(h.cases[j], to) && n in Cleared(h.cases[j].defs, to))
  {
    var items, u := Active(defs, from, None), Defaults(Upsert, created, force);
    ActiveOk(defs, from, None);
    HomesOk(defs, from, to, None);
    hide Active, Cleared, Plain, ChoicesOk, PlainCases, WrittenLeafs, WrittenSubs;
    ClearedBy(items, from, to, u, i, j, n);
    PopulatedAfter(Upsert, items, from, to, u, force, n);
  }

  lemma ClearedBy(items: seq<Item>, from: Tree, to: Tree, useDefault: bool, i: nat, j: nat, n: string)
    requires ItemsOk(items, from) && AllFair(items, to) && i < |items| && items[i].home.Some?
             && Contributes(items[i], from, useDefault)
    requires var h := items[i].home.value; j < |h.cases| && j != h.mine && n in LevelNames(h.cases[j].defs)
    ensures n !in WrittenNames(items, from, useDefault)
    ensures var h := items[i].home.value;
            n in Dropped(Upsert, items, from, to, useDefault) <==>
                HasData(h.cases[j], to) && n in Cleared(h.cases[j].defs, to)
  {
    var h := items[i].home.value;
    assert ItemOk(items[i], from) && n in Others(h);
    CaseDropped(items[i], from, to, useDefault, j, n);
    forall q | 0 <= q < |items|
      ensures items[q].def.ident != n
      ensures n in DroppedBy(Upsert, items[q], from, to, useDefault) ==>
                n in DroppedBy(Upsert, items[i], from, to, useDefault)
    {
      DroppedInOthers(Upsert, items[q], from, to, useDefault);
      if q < i {
        assert Apart(items[q], items[i]);
      } else if i < q {
        assert Apart(items[i], items[q]);
      }
    }
  }

  lemma CaseDropped(it: Item, from: Tree, to: Tree, useDefault: bool, j: nat, n: string)
    requires it.home.Some? && Contributes(it, from, useDefault) && ItemOk(it, from) && Fair(it.home.value.cases, to)
    requires var h := it.home.value; j < |h.cases| && j != h.mine && n in LevelNames(h.cases[j].defs)
    ensures var h := it.home.value;
            n in DroppedBy(Upsert, it, from, to, useDefault) <==>
                HasData(h.cases[j], to) && n in Cleared(h.cases[j].defs, to)
  {
    var h := it.home.value;
    var held := Choose(h.cases, to);
    if held.Some? {
      ActiveNames(h.cases[held.value].defs, to, None);
      if held.value < j {
        CasesApart(h.cases, held.value, j);
      } else if j < held.value {
        CasesApart(h.cases, j, held.value);
      }
    }
  }

  // ---------- a case that only nested choices hold data of ----------

  const LEAF_A := Leaf("a", None)
  const LEAF_P := Leaf("p", None)
  const INNER := Choice("n", [Case("p", [LEAF_P])])
  const OUTER := Choice("c", [Case("a", [LEAF_A]), Case("b", [INNER])])

  /** The source's case is written, but the other one, whose data lie in a nested choice, stays: both then hold data. */
  lemma NestedCaseStays()
    ensures var from, to := Tree(map["a" := "1"], map[]), Tree(map["p" := "2"], map[]);
            && Plain([OUTER]) && Proper([OUTER], to)
            && Merge(Upsert, [OUTER], from, to, false, false) == Tree(map["a" := "1", "p" := "2"], map[])
  {
    var from, to := Tree(map["a" := "1"], map[]), Tree(map["p" := "2"], map[]);
    var home := Some(Home(OUTER.cases, 0));
    NestedWalk();
    NestedIsProper(to);
    hide Active, Plain, Proper, Choose;
    var it := Item(LEAF_A, Some(Home(OUTER.cases, 0)));
    assert [it][..0] == [];
    assert WrittenLeafs([it], from, false) == map[] + NewLeaf(it, from, false);
    assert NewSub(Upsert, it, from, to, false) == map[];
    assert WrittenSubs(Upsert, [it], from, to, false)
           == WrittenSubs(Upsert, [], from, to, false) + NewSub(Upsert, it, from, to, false);
    assert Dropped(Upsert, Active([OUTER], from, None), from, to, false) == {};
    assert Merge(Upsert, [OUTER], from, to, false, false)
           == MergeItems(Upsert, Active([OUTER], from, None), from, to, false, false);
    assert to.leafs - {} + map["a" := "1"] == map["a" := "1", "p" := "2"];
  }

  lemma NestedWalk()
    ensures Active([OUTER], Tree(map["a" := "1"], map[]), None) == [Item(LEAF_A, Some(Home(OUTER.cases, 0)))]
    ensures Choose(OUTER.cases, Tree(map["p" := "2"], map[])).None?
  {
    var from, to := Tree(map["a" := "1"], map[]), Tree(map["p" := "2"], map[]);
    var home := Some(Home(OUTER.cases, 0));
    assert Populated(from, OUTER.cases[0].defs[0].ident);
    assert HasData(OUTER.cases[0], from) && Choose(OUTER.cases, from) == Some(0);
    assert ActiveOne(LEAF_A, from, home) == [Item(LEAF_A, home)];
    assert Active([], from, home) == [] && Active([LEAF_A], from, home) == [Item(LEAF_A, home)];
    assert Active([OUTER], from, None) == ActiveOne(OUTER, from, None) + Active([], from, None);
  }

  lemma OneDefinition(d: Def, t: Tree)
    ensures Plain([d]) <==> PlainOne(d)
    ensures LevelNames([d]) == LevelOne(d)
    ensures ChoicesOk([d], t) <==> ChoiceOk(d, t)
    ensures SubsProper([d], t) <==> SubProper(d, t)
  {
    assert [d][1..] == [];
  }

  lemma OneOfCases(c: Case, t: Tree)
    ensures PlainCases([c]) <==> Plain(c.defs)
    ensures LevelCases([c]) == LevelNames(c.defs)
    ensures CasesOk([c], t) <==> ChoicesOk(c.defs, t)
    ensures CasesProper([c], t) <==> SubsProper(c.defs, t)
  {
    assert [c][1..] == [];
  }

  lemma NestedIsProper(t: Tree)
    requires t == Tree(map["p" := "2"], map[])
    ensures Plain([OUTER]) && Proper([OUTER], t)
  {
    var a, b := OUTER.cases[0], OUTER.cases[1];
    OneDefinition(LEAF_A, t);
    OneDefinition(LEAF_P, t);
    OneOfCases(INNER.cases[0], t);
    OneDefinition(INNER, t);
    OneOfCases(b, t);
    OneDefinition(OUTER, t);
    assert OUTER.cases[1..] == [b];
    assert !HasData(a, t) && !HasData(b, t);
  }

  // ---------- update ----------

  /** A successful update neither adds nor removes a child. */
  lemma UpdateKeepsChildren(defs: seq<Def>, from: Tree, to: Tree, created: bool, force: bool)
    requires Plain(defs) && Admits(Update, defs, from, to)
    ensures Merge(Update, defs, from, to, created, force).subs.Keys == to.subs.Keys
  {
    var items := Active(defs, from, None);
    assert Dropped(Update, items, from, to, Defaults(Update, created, force)) == {};
    forall n | n in WrittenSubs(Update, items, from, to, force) ensures n in to.subs {
      WrittenSubKeys(Update, items, from, to, force, n);
      var i :| 0 <= i < |items| && !items[i].def.Leaf? && items[i].def.ident in from.subs && items[i].def.ident == n;
      assert AdmitsChild(Update, items[i].def, from.subs[n], to);
    }
  }

  // ---------- insert ----------

  lemma {:induction false} EmptyAdmitsInsert(defs: seq<Def>, from: Tree)
    ensures Admits(Insert, defs, from, EMPTY)
    decreases from
  {
    var items := Active(defs, from, None);
    forall i | 0 <= i < |items| && !items[i].def.Leaf? && items[i].def.ident in from.subs
      ensures AdmitsChild(Insert, items[i].def, from.subs[items[i].def.ident], EMPTY)
    {
      match items[i].def
      case Container(_, sub) => EmptyAdmitsInsert(sub, from.subs[items[i].def.ident]);
      case _ =>
    }
  }

  /** Both roots hold a container or list that the walk visits. */
  ghost predicate Clash(items: seq<Item>, from: Tree, to: Tree, i: nat)
    requires i < |items|
  {
    !items[i].def.Leaf? && items[i].def.ident in from.subs && items[i].def.ident in to.subs
  }

  /** An insert at a container conflicts exactly when both roots hold some container or list that the walk visits. */
  lemma InsertConflict(defs: seq<Def>, from: Tree, to: Tree)
    ensures var items := Active(defs, from, None);
            Admits(Insert, defs, from, to) <==> forall i: nat :: i < |items| ==> !Clash(items, from, to, i)
  {
    var items := Active(defs, from, None);
    forall i: nat | i < |items| && !items[i].def.Leaf? && items[i].def.ident in from.subs
      ensures AdmitsChild(Insert, items[i].def, from.subs[items[i].def.ident], to) <==> !Clash(items, from, to, i)
    {
      InsertChildConflict(items[i].def, from.subs[items[i].def.ident], to);
    }
    if Admits(Insert, defs, from, to) {
      forall i: nat | i < |items| ensures !Clash(items, from, to, i) {
        if !items[i].def.Leaf? && items[i].def.ident in from.subs {
          assert AdmitsChild(Insert, items[i].def, from.subs[items[i].def.ident], to);
        }
      }
    }
  }

  lemma InsertChildConflict(d: Def, from: Tree, to: Tree)
    ensures AdmitsChild(Insert, d, from, to) <==> d.ident !in to.subs
  {
    if d.Container? {
      EmptyAdmitsInsert(d.defs, from);
    }
  }

  /** Into an empty target the strategies insert and upsert do the same: they copy the source. */
  lemma {:induction false} CopyEitherWay(d: Def, from: Tree, force: bool)
    ensures MergeSub(Insert, d, from, EMPTY, true, force) == MergeSub(Upsert, d, from, EMPTY, true, force)
    decreases from, 1
  {
    if d.Container? {
      CopyBody(d.defs, from, force);
    }
  }

  lemma {:induction false} CopyBody(defs: seq<Def>, from: Tree, force: bool)
    ensures Merge(Insert, defs, from, EMPTY, true, force) == Merge(Upsert, defs, from, EMPTY, true, force)
    decreases from, 0
  {
    var items := Active(defs, from, None);
    forall i | 0 <= i < |items| ensures DroppedBy(Upsert, items[i], from, EMPTY, true) == {} {}
    assert Dropped(Insert, items, from, EMPTY, true) == {} == Dropped(Upsert, items, from, EMPTY, true);
    CopySubs(items, from, force);
  }

  lemma {:induction false} CopySubs(items: seq<Item>, from: Tree, force: bool)
    ensures WrittenSubs(Insert, items, from, EMPTY, force) == WrittenSubs(Upsert, items, from, EMPTY, force)
    decreases from, 0, |items|
  {
    if items != [] {
      CopySubs(items[..|items| - 1], from, force);
      var it := items[|items| - 1];
      if !it.def.Leaf? && it.def.ident in from.subs {
        CopyEitherWay(it.def, from.subs[it.def.ident], force);
      }
    }
  }

  /** A successful insert leaves every child of the target alone, and adds those of the source that are visited. */
  lemma InsertChildren(defs: seq<Def>, from: Tree, to: Tree, created: bool, force: bool, id: string)
    requires Plain(defs) && Admits(Insert, defs, from, to)
    ensures var items := Active(defs, from, None);
            var merged := Merge(Insert, defs, from, to, created, force);
            && (id in merged.subs <==> id in to.subs || (id in from.subs && Visits(items, id)))
            && (id in to.subs ==> merged.subs[id] == to.subs[id])
            && (id in to.leafs ==> id in merged.leafs)
  {
    var items := Active(defs, from, None);
    InsertDropsNothing(items, from, to, Defaults(Insert, created, force));
    InsertConflict(defs, from, to);
    WrittenIfVisited(Insert, defs, from, to, force, id);
    if id in from.subs && Visits(items, id) {
      var i: nat :| i < |items| && !items[i].def.Leaf? && items[i].def.ident == id;
      assert !Clash(items, from, to, i);
    }
    hide WrittenSubs, Dropped, Active, Plain, Visits, WrittenLeafs, Admits;
  }

  lemma InsertDropsNothing(items: seq<Item>, from: Tree, to: Tree, useDefault: bool)
    ensures Dropped(Insert, items, from, to, useDefault) == {}
  {
  }

  /** What it adds are copies of the source's children, with defaults, which do not depend on the target. */
  lemma InsertCopies(defs: seq<Def>, from: Tree, to: Tree, created: bool, force: bool, i: nat)
    requires Plain(defs) && Admits(Insert, defs, from, to) && i < |Active(defs, from, None)|
    requires var d := Active(defs, from, None)[i].def; !d.Leaf? && d.ident in from.subs
    ensures var d := Active(defs, from, None)[i].def;
            var merged := Merge(Insert, defs, from, to, created, force);
            d.ident !in to.subs && d.ident in merged.subs
            && merged.subs[d.ident] == MergeSub(Upsert, d, from.subs[d.ident], EMPTY, true, force)
  {
    var items := Active(defs, from, None);
    var d := items[i].def;
    ActiveOk(defs, from, None);
    InsertConflict(defs, from, to);
    assert !Clash(items, from, to, i);
    WrittenSubAt(Insert, items, from, to, force, i);
    CopyEitherWay(d, from.subs[d.ident], force);
    hide WrittenSubs, Dropped, Active, Plain, WrittenLeafs, ItemsOk, MergeSub, Admits;
  }
}
