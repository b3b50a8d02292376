/** Relates the merge to the steps by which an edit reaches it. */
module EditStep {
  import opened Wrappers
  import opened DataSchema
  import opened SchemaNames
  import opened EditSpec

  // ---------- the definitions a walk visits and the choices they sit in ----------

  /** The names that the cases of a choice have directly. */
  ghost function DirectNames(cases: seq<Case>): set<string> {
    if cases == [] then {} else Names(cases[0].defs) + DirectNames(cases[1..])
  }

  /** All names of the cases that the walk did not choose. */
  ghost function Others(h: Home): set<string> {
    set j, n | 0 <= j < |h.cases| && j != h.mine && n in LevelNames(h.cases[j].defs) :: n
  }

  ghost predicate ItemOk(it: Item, from: Tree) {
    && !it.def.Choice?
    && (it.home.Some? ==>
          && PlainCases(it.home.value.cases) && it.home.value.mine < |it.home.value.cases|
          && it.def in it.home.value.cases[it.home.value.mine].defs
          && it.def.ident !in Others(it.home.value)
          && Choose(it.home.value.cases, from) == Some(it.home.value.mine))
  }

  /**
    Neither writing `q` nor dropping the other cases of its choice touches the choice of `p`, unless it is the same
    one.
  */
  ghost predicate Spares(p: Item, q: Item) {
    p.home.Some? ==>
      && q.def.ident !in Others(p.home.value)
      && (p.home != q.home ==>
            && q.def.ident !in DirectNames(p.home.value.cases)
            && (q.home.Some? ==>
                  Others(q.home.value) !! DirectNames(p.home.value.cases)
                    && Others(q.home.value) !! Others(p.home.value)))
  }

  ghost predicate Apart(p: Item, q: Item) {
    p.def.ident != q.def.ident && Spares(p, q) && Spares(q, p)
  }

  ghost predicate ItemsOk(items: seq<Item>, from: Tree) {
    && (forall i :: 0 <= i < |items| ==> ItemOk(items[i], from))
    && (forall i, j :: 0 <= i < j < |items| ==> Apart(items[i], items[j]))
  }

  /** The definitions `defs` stand directly in the chosen case of the choice `home`, if there is one. */
  ghost predicate Homely(defs: seq<Def>, home: Option<Home>, from: Tree) {
    home.Some? ==>
      && PlainCases(home.value.cases) && home.value.mine < |home.value.cases|
      && Choose(home.value.cases, from) == Some(home.value.mine)
      && LevelNames(defs) !! Others(home.value)
      && forall k :: 0 <= k < |defs| ==> defs[k] in home.value.cases[home.value.mine].defs
  }

  /** An item of names `names` below `home`: it sits directly there, or in a choice that is there. */
  ghost predicate Below(it: Item, names: set<string>, home: Option<Home>) {
    && it.def.ident in names
    && (it.home == home ||
        (it.home.Some?
         && it.def.ident in LevelCases(it.home.value.cases) && LevelCases(it.home.value.cases) <= names
         && Others(it.home.value) <= LevelCases(it.home.value.cases)
         && DirectNames(it.home.value.cases) <= LevelCases(it.home.value.cases)
         && (home.Some? ==> LevelCases(it.home.value.cases) !! DirectNames(home.value.cases))))
  }

  ghost predicate AllBelow(items: seq<Item>, names: set<string>, home: Option<Home>) {
    forall i :: 0 <= i < |items| ==> Below(items[i], names, home)
  }

  lemma {:induction false} NamesInLevel(defs: seq<Def>)
    ensures Names(defs) <= LevelNames(defs)
  {
    forall k | 0 <= k < |defs| ensures defs[k].ident in LevelNames(defs) {
      LevelHas(defs, k);
    }
  }

  lemma {:induction false} CaseInLevel(cases: seq<Case>, j: nat)
    requires j < |cases|
    ensures LevelNames(cases[j].defs) <= LevelCases(cases) && Names(cases[j].defs) <= DirectNames(cases)
  {
    if j > 0 {
      CaseInLevel(cases[1..], j - 1);
    }
  }

  lemma {:induction false} DirectInLevel(cases: seq<Case>)
    ensures DirectNames(cases) <= LevelCases(cases)
  {
    if cases != [] {
      NamesInLevel(cases[0].defs);
      DirectInLevel(cases[1..]);
    }
  }

  lemma OthersInLevel(h: Home)
    ensures Others(h) <= LevelCases(h.cases)
  {
    forall n | n in Others(h) ensures n in LevelCases(h.cases) {
      var j :| 0 <= j < |h.cases| && j != h.mine && n in LevelNames(h.cases[j].defs);
      CaseInLevel(h.cases, j);
    }
  }

  /** The chosen case shares no names with the others. */
  lemma OthersApart(h: Home)
    requires PlainCases(h.cases) && h.mine < |h.cases|
    ensures LevelNames(h.cases[h.mine].defs) !! Others(h)
  {
    forall n | n in Others(h) ensures n !in LevelNames(h.cases[h.mine].defs) {
      var j :| 0 <= j < |h.cases| && j != h.mine && n in LevelNames(h.cases[j].defs);
      if j < h.mine {
        CasesApart(h.cases, j, h.mine);
      } else {
        CasesApart(h.cases, h.mine, j);
      }
    }
  }

  lemma {:induction false} PlainAt(defs: seq<Def>, k: nat)
    requires Plain(defs) && k < |defs|
    ensures PlainOne(defs[k]) && LevelOne(defs[k]) <= LevelNames(defs)
  {
    if k > 0 {
      PlainAt(defs[1..], k - 1);
    }
  }

  /** What is nested in a choice is none of the names directly beside it. */
  lemma {:induction false} NestedNotDirect(defs: seq<Def>, k: nat)
    requires Plain(defs) && k < |defs| && defs[k].Choice?
    ensures LevelCases(defs[k].cases) !! Names(defs)
  {
    LevelParts(defs);
    NamesInLevel(defs[1..]);
    assert Names(defs) == {defs[0].ident} + Names(defs[1..]) by { NamesFirst(defs); }
    if k > 0 {
      NestedNotDirect(defs[1..], k - 1);
      PlainAt(defs[1..], k - 1);
    }
  }

  lemma NamesFirst(defs: seq<Def>)
    requires defs != []
    ensures Names(defs) == {defs[0].ident} + Names(defs[1..])
  {
    forall n | n in Names(defs) ensures n in {defs[0].ident} + Names(defs[1..]) {
      var i :| 0 <= i < |defs| && defs[i].ident == n;
      assert i > 0 ==> defs[1..][i - 1] == defs[i];
    }
    forall n | n in Names(defs[1..]) ensures n in Names(defs) {
      var i :| 0 <= i < |defs[1..]| && defs[1..][i].ident == n;
      assert defs[i + 1].ident == n;
    }
  }

  /** Nor is it a direct name of the choice around it. */
  lemma {:induction false} NestedNotDirectIn(cases: seq<Case>, c: nat, k: nat)
    requires PlainCases(cases) && c < |cases| && k < |cases[c].defs| && cases[c].defs[k].Choice?
    ensures LevelCases(cases[c].defs[k].cases) !! DirectNames(cases)
  {
    DirectInLevel(cases[1..]);
    NamesInLevel(cases[0].defs);
    if c == 0 {
      NestedNotDirect(cases[0].defs, k);
      PlainAt(cases[0].defs, k);
    } else {
      NestedNotDirectIn(cases[1..], c - 1, k);
      CaseInLevel(cases[1..], c - 1);
      CasePlain(cases[1..], c - 1);
      PlainAt(cases[c].defs, k);
    }
  }

  lemma SparesAcross(p: Item, q: Item, an: set<string>, bn: set<string>, home: Option<Home>)
    requires Below(p, an, home) && Below(q, bn, home) && an !! bn && (home.Some? ==> an + bn !! Others(home.value))
    ensures Spares(p, q)
  {
  }

  lemma ItemsOkAppend(a: seq<Item>, b: seq<Item>, from: Tree, an: set<string>, bn: set<string>, home: Option<Home>)
    requires ItemsOk(a, from) && ItemsOk(b, from) && an !! bn && AllBelow(a, an, home) && AllBelow(b, bn, home)
    requires home.Some? ==> an + bn !! Others(home.value)
    ensures ItemsOk(a + b, from) && AllBelow(a + b, an + bn, home)
  {
    forall i, j | 0 <= i < |a| && 0 <= j < |b| ensures Apart(a[i], b[j]) {
      SparesAcross(a[i], b[j], an, bn, home);
      SparesAcross(b[j], a[i], bn, an, home);
      assert Below(a[i], an, home) && Below(b[j], bn, home);
    }
    forall i | 0 <= i < |a + b| ensures Below((a + b)[i], an + bn, home) {
      assert i < |a| ==> Below(a[i], an, home);
      assert i >= |a| ==> Below(b[i - |a|], bn, home);
    }
  }

  lemma {:induction false} ActiveOk(defs: seq<Def>, t: Tree, home: Option<Home>)
    requires Plain(defs) && Homely(defs, home, t)
    ensures ItemsOk(Active(defs, t, home), t) && AllBelow(Active(defs, t, home), LevelNames(defs), home)
  {
    if defs != [] {
      HomelyParts(defs, home, t);
      LevelParts(defs);
      ActiveOneOk(defs[0], t, home);
      ActiveOk(defs[1..], t, home);
      ItemsOkAppend(ActiveOne(defs[0], t, home), Active(defs[1..], t, home), t, LevelOne(defs[0]),
                    LevelNames(defs[1..]), home);
    }
  }

  lemma HomelyParts(defs: seq<Def>, home: Option<Home>, t: Tree)
    requires Homely(defs, home, t) && defs != []
    ensures Homely([defs[0]], home, t) && Homely(defs[1..], home, t)
    ensures home.Some? ==> LevelOne(defs[0]) + LevelNames(defs[1..]) !! Others(home.value)
  {
    LevelParts(defs);
    LevelParts([defs[0]]);
    assert [defs[0]][1..] == [];
  }

  lemma {:induction false} ActiveOneOk(d: Def, t: Tree, home: Option<Home>)
    requires PlainOne(d) && Homely([d], home, t)
    ensures ItemsOk(ActiveOne(d, t, home), t) && AllBelow(ActiveOne(d, t, home), LevelOne(d), home)
  {
    LevelParts([d]);
    if !d.Choice? {
      assert ActiveOne(d, t, home) == [Item(d, home)];
      assert home.Some? ==> d == [d][0] && d in home.value.cases[home.value.mine].defs;
    } else if Choose(d.cases, t).Some? {
      var inner := Home(d.cases, Choose(d.cases, t).value);
      var mine := d.cases[inner.mine].defs;
      CasePlain(d.cases, inner.mine);
      OthersApart(inner);
      ActiveOk(mine, t, Some(inner));
      OneBelow(d, t, home, inner);
    }
  }

  lemma OneBelow(d: Def, t: Tree, home: Option<Home>, inner: Home)
    requires PlainOne(d) && Homely([d], home, t) && d.Choice? && inner.cases == d.cases && inner.mine < |d.cases|
    requires AllBelow(Active(d.cases[inner.mine].defs, t, Some(inner)), LevelNames(d.cases[inner.mine].defs),
                      Some(inner))
    ensures AllBelow(Active(d.cases[inner.mine].defs, t, Some(inner)), LevelOne(d), home)
  {
    var items := Active(d.cases[inner.mine].defs, t, Some(inner));
    CaseInLevel(d.cases, inner.mine);
    OthersInLevel(inner);
    DirectInLevel(d.cases);
    if home.Some? {
      assert d == [d][0];
      var k :| 0 <= k < |home.value.cases[home.value.mine].defs| && home.value.cases[home.value.mine].defs[k] == d;
      NestedNotDirectIn(home.value.cases, home.value.mine, k);
    }
    forall i | 0 <= i < |items| ensures Below(items[i], LevelOne(d), home) {
      assert Below(items[i], LevelNames(d.cases[inner.mine].defs), Some(inner));
    }
  }

  /** At most one case of the choice holds data, and no choice directly in one of its cases does. */
  ghost predicate Fair(cases: seq<Case>, t: Tree) {
    && OneCase(cases, t)
    && forall c, k :: 0 <= c < |cases| && 0 <= k < |cases[c].defs| && cases[c].defs[k].Choice? ==>
         !Populated(t, cases[c].defs[k].ident)
  }

  lemma {:induction false} ChoicesOkAt(defs: seq<Def>, t: Tree, k: nat)
    requires ChoicesOk(defs, t) && k < |defs|
    ensures ChoiceOk(defs[k], t)
  {
    if k > 0 {
      ChoicesOkAt(defs[1..], t, k - 1);
    }
  }

  lemma {:induction false} CasesOkAt(cases: seq<Case>, t: Tree, c: nat)
    requires CasesOk(cases, t) && c < |cases|
    ensures ChoicesOk(cases[c].defs, t)
  {
    if c > 0 {
      CasesOkAt(cases[1..], t, c - 1);
    }
  }

  lemma ChoiceIsFair(d: Def, t: Tree)
    requires d.Choice? && ChoiceOk(d, t)
    ensures Fair(d.cases, t)
  {
    forall c, k | 0 <= c < |d.cases| && 0 <= k < |d.cases[c].defs| && d.cases[c].defs[k].Choice?
      ensures !Populated(t, d.cases[c].defs[k].ident)
    {
      CasesOkAt(d.cases, t, c);
      ChoicesOkAt(d.cases[c].defs, t, k);
    }
  }

  ghost predicate AllFair(items: seq<Item>, t: Tree) {
    forall i :: 0 <= i < |items| && items[i].home.Some? ==> Fair(items[i].home.value.cases, t)
  }

  lemma {:induction false} HomesOk(defs: seq<Def>, from: Tree, to: Tree, home: Option<Home>)
    requires ChoicesOk(defs, to) && (home.Some? ==> Fair(home.value.cases, to))
    ensures AllFair(Active(defs, from, home), to)
  {
    if defs != [] {
      HomesOk(defs[1..], from, to, home);
      HomesOkOne(defs[0], from, to, home);
    }
  }

  lemma {:induction false} HomesOkOne(d: Def, from: Tree, to: Tree, home: Option<Home>)
    requires ChoiceOk(d, to) && (home.Some? ==> Fair(home.value.cases, to))
    ensures AllFair(ActiveOne(d, from, home), to)
  {
    if d.Choice? && Choose(d.cases, from).Some? {
      var c := Choose(d.cases, from).value;
      ChoiceIsFair(d, to);
      CasesOkAt(d.cases, to, c);
      HomesOk(d.cases[c].defs, from, to, Some(Home(d.cases, c)));
    }
  }

  ghost predicate AllProper(items: seq<Item>, t: Tree) {
    forall i :: 0 <= i < |items| && items[i].def.ident in t.subs ==> ProperSub(items[i].def, t.subs[items[i].def.ident])
  }

  lemma {:induction false} ActiveProper(defs: seq<Def>, from: Tree, to: Tree, home: Option<Home>)
    requires SubsProper(defs, to)
    ensures AllProper(Active(defs, from, home), to)
  {
    if defs != [] {
      ActiveProper(defs[1..], from, to, home);
      ActiveOneProper(defs[0], from, to, home);
    }
  }

  lemma {:induction false} ActiveOneProper(d: Def, from: Tree, to: Tree, home: Option<Home>)
    requires SubProper(d, to)
    ensures AllProper(ActiveOne(d, from, home), to)
  {
    if !d.Choice? {
      assert ActiveOne(d, from, home) == [Item(d, home)];
    } else if Choose(d.cases, from).Some? {
      var c := Choose(d.cases, from).value;
      CasesProperAt(d.cases, to, c);
      ActiveProper(d.cases[c].defs, from, to, Some(Home(d.cases, c)));
    }
  }

  lemma {:induction false} CasesProperAt(cases: seq<Case>, t: Tree, c: nat)
    requires CasesProper(cases, t) && c < |cases|
    ensures SubsProper(cases[c].defs, t)
  {
    if c > 0 {
      CasesProperAt(cases[1..], t, c - 1);
    }
  }

  // ---------- one step of an edit ----------

  /** The target without the data of another case of the choice than the wanted one. */
  ghost function ClearOther(t: Tree, home: Option<Home>): Tree {
    if home.None? then t else
      match Choose(home.value.cases, t)
      case None => t
      case Some(j) => if j == home.value.mine then t else Without(t, Cleared(home.value.cases[j].defs, t))
  }

  ghost function Without(t: Tree, names: set<string>): Tree {
    Tree(t.leafs - names, t.subs - names)
  }

  ghost function WrittenNames(items: seq<Item>, from: Tree, useDefault: bool): set<string> {
    set i | 0 <= i < |items| && Contributes(items[i], from, useDefault) :: items[i].def.ident
  }

  lemma {:induction false} WrittenLeafKeys(items: seq<Item>, from: Tree, useDefault: bool, n: string)
    ensures n in WrittenLeafs(items, from, useDefault) <==>
              exists i :: 0 <= i < |items| && items[i].def.Leaf? && Contributes(items[i], from, useDefault)
                && items[i].def.ident == n
  {
    if items != [] {
      WrittenLeafKeys(items[..|items| - 1], from, useDefault, n);
      assert forall i :: 0 <= i < |items| - 1 ==> items[..|items| - 1][i] == items[i];
    }
  }

  lemma {:induction false} WrittenSubKeys(st: Strategy, items: seq<Item>, from: Tree, to: Tree, force: bool, n: string)
    ensures n in WrittenSubs(st, items, from, to, force) <==>
              exists i :: 0 <= i < |items| && !items[i].def.Leaf? && items[i].def.ident in from.subs
                && items[i].def.ident == n
  {
    if items != [] {
      WrittenSubKeys(st, items[..|items| - 1], from, to, force, n);
      assert forall i :: 0 <= i < |items| - 1 ==> items[..|items| - 1][i] == items[i];
    }
  }

  /** Which names hold data after the first steps. */
  lemma PopulatedAfter(st: Strategy, items: seq<Item>, from: Tree, to: Tree, useDefault: bool, force: bool, n: string)
    ensures Populated(MergeItems(st, items, from, to, useDefault, force), n) <==>
              (Populated(to, n) && n !in Dropped(st, items, from, to, useDefault))
                || n in WrittenNames(items, from, useDefault)
  {
    WrittenLeafKeys(items, from, useDefault, n);
    WrittenSubKeys(st, items, from, to, force, n);
  }

  lemma ChooseSame(cases: seq<Case>, s: Tree, t: Tree)
    requires forall n :: n in DirectNames(cases) ==> (Populated(s, n) <==> Populated(t, n))
    ensures Choose(cases, s) == Choose(cases, t)
  {
    ChooseSameFrom(cases, s, t, 0);
  }

  lemma {:induction false} ChooseSameFrom(cases: seq<Case>, s: Tree, t: Tree, i: nat)
    requires i <= |cases|
    requires forall n :: n in DirectNames(cases) ==> (Populated(s, n) <==> Populated(t, n))
    ensures ChooseFrom(cases, s, i) == ChooseFrom(cases, t, i)
    decreases |cases| - i
  {
    if i < |cases| {
      CaseInLevel(cases, i);
      forall k | 0 <= k < |cases[i].defs| ensures cases[i].defs[k].ident in Names(cases[i].defs) {}
      assert HasData(cases[i], s) <==> HasData(cases[i], t);
      ChooseSameFrom(cases, s, t, i + 1);
    }
  }

  ghost predicate SameAt(names: set<string>, s: Tree, t: Tree) {
    forall n :: n in names ==> (Populated(s, n) <==> Populated(t, n))
  }

  lemma {:induction false} ActiveSame(defs: seq<Def>, s: Tree, t: Tree, home: Option<Home>)
    requires SameAt(LevelNames(defs), s, t)
    ensures Active(defs, s, home) == Active(defs, t, home)
  {
    if defs != [] {
      ActiveSame(defs[1..], s, t, home);
      ActiveOneSame(defs[0], s, t, home);
    }
  }

  lemma {:induction false} ActiveOneSame(d: Def, s: Tree, t: Tree, home: Option<Home>)
    requires SameAt(LevelOne(d), s, t)
    ensures ActiveOne(d, s, home) == ActiveOne(d, t, home)
  {
    if d.Choice? {
      DirectInLevel(d.cases);
      ChooseSame(d.cases, s, t);
      if Choose(d.cases, t).Some? {
        var c := Choose(d.cases, t).value;
        CaseInLevel(d.cases, c);
        ActiveSame(d.cases[c].defs, s, t, Some(Home(d.cases, c)));
      }
    }
  }

  /** What holds when the walk reaches `it`, having visited `items`. */
  ghost predicate Reached(items: seq<Item>, it: Item, from: Tree, to: Tree) {
    && ItemsOk(items + [it], from)
    && AllFair(items, to) && (it.home.Some? ==> Fair(it.home.value.cases, to))
  }

  lemma ReachedFacts(items: seq<Item>, it: Item, from: Tree, to: Tree, i: nat)
    requires Reached(items, it, from, to) && i < |items|
    ensures ItemOk(items[i], from) && Apart(items[i], it)
    ensures ItemOk(it, from)
    ensures ItemsOk(items, from)
  {
    var all := items + [it];
    assert all[i] == items[i] && all[|items|] == it;
    assert forall q :: 0 <= q < |items| ==> all[q] == items[q];
  }

  ghost predicate ChoiceSeen(items: seq<Item>, it: Item, from: Tree, useDefault: bool) {
    exists i :: 0 <= i < |items| && Contributes(items[i], from, useDefault) && items[i].home == it.home
  }

  /** Once the choice of `it` has been written to, it holds no other case. */
  lemma ClearedAlready(st: Strategy, items: seq<Item>, it: Item, from: Tree, to: Tree, useDefault: bool, force: bool)
    requires Reached(items, it, from, to) && st.Upsert? && it.home.Some? && ItemOk(it, from)
    requires ChoiceSeen(items, it, from, useDefault)
    ensures ClearOther(MergeItems(st, items, from, to, useDefault, force), it.home)
         == MergeItems(st, items, from, to, useDefault, force)
    ensures DroppedBy(st, it, from, to, useDefault) <= Dropped(st, items, from, to, useDefault)
  {
    var i :| 0 <= i < |items| && Contributes(items[i], from, useDefault) && items[i].home == it.home;
    var h := it.home.value;
    var cur := MergeItems(st, items, from, to, useDefault, force);
    ReachedFacts(items, it, from, to, i);
    assert DroppedBy(st, it, from, to, useDefault) <= DroppedBy(st, items[i], from, to, useDefault);
    forall j: nat | j < |h.cases| && j != h.mine ensures !HasData(h.cases[j], cur) {
      forall k | 0 <= k < |h.cases[j].defs| ensures !Populated(cur, h.cases[j].defs[k].ident) {
        OtherCaseGone(st, items, from, to, useDefault, force, i, j, k);
      }
    }
  }

  /** A choice that has been written to holds no other case. */
  lemma OtherCaseGone(st: Strategy, items: seq<Item>, from: Tree, to: Tree, useDefault: bool, force: bool, i: nat,
                      j: nat, k: nat)
    requires ItemsOk(items, from) && st.Upsert?
    requires i < |items| && Contributes(items[i], from, useDefault) && items[i].home.Some?
    requires var h := items[i].home.value;
             Fair(h.cases, to) && j < |h.cases| && j != h.mine && k < |h.cases[j].defs|
    ensures !Populated(MergeItems(st, items, from, to, useDefault, force), items[i].home.value.cases[j].defs[k].ident)
  {
    var h := items[i].home.value;
    var n := h.cases[j].defs[k].ident;
    LevelHas(h.cases[j].defs, k);
    PopulatedAfter(st, items, from, to, useDefault, force, n);
    if Populated(to, n) {
      assert HasData(h.cases[j], to);
      assert Choose(h.cases, to) == Some(j);
      ActiveHas(h.cases[j].defs, to, None, k);
      assert n in DroppedBy(st, items[i], from, to, useDefault);
    }
    forall q | 0 <= q < |items| ensures items[q].def.ident != n {
      if q < i {
        assert Apart(items[q], items[i]);
      } else if i < q {
        assert Apart(items[i], items[q]);
      } else {
        assert ItemOk(items[i], from);
      }
      assert items[q].def.ident !in Others(h) && n in Others(h);
    }
  }

  /** What is dropped are names of the cases not chosen. */
  lemma DroppedInOthers(st: Strategy, it: Item, from: Tree, to: Tree, useDefault: bool)
    ensures it.home.Some? ==> DroppedBy(st, it, from, to, useDefault) <= Others(it.home.value)
    ensures !Contributes(it, from, useDefault) || it.home.None? ==> DroppedBy(st, it, from, to, useDefault) == {}
  {
    if it.home.Some? && Choose(it.home.value.cases, to).Some? {
      ActiveNames(it.home.value.cases[Choose(it.home.value.cases, to).value].defs, to, None);
    }
  }

  lemma {:induction false} ActiveNames(defs: seq<Def>, t: Tree, home: Option<Home>)
    ensures Idents(Active(defs, t, home)) <= LevelNames(defs)
  {
    if defs != [] {
      IdentsAppend(ActiveOne(defs[0], t, home), Active(defs[1..], t, home));
      ActiveNames(defs[1..], t, home);
      ActiveOneNames(defs[0], t, home);
    }
  }

  lemma {:induction false} ActiveOneNames(d: Def, t: Tree, home: Option<Home>)
    ensures Idents(ActiveOne(d, t, home)) <= LevelOne(d)
  {
    if !d.Choice? {
      assert ActiveOne(d, t, home) == [Item(d, home)];
    } else if Choose(d.cases, t).Some? {
      var c := Choose(d.cases, t).value;
      CaseInLevel(d.cases, c);
      ActiveNames(d.cases[c].defs, t, Some(Home(d.cases, c)));
    }
  }

  /** Until the choice of `it` has been written to, it is as it was. */
  lemma UntouchedYet(st: Strategy, items: seq<Item>, it: Item, from: Tree, to: Tree, useDefault: bool, force: bool)
    requires Reached(items, it, from, to) && it.home.Some?
    requires !ChoiceSeen(items, it, from, useDefault)
    ensures var h, cur := it.home.value, MergeItems(st, items, from, to, useDefault, force);
            SameAt(DirectNames(h.cases), cur, to) && SameAt(Others(h), cur, to)
  {
    var h := it.home.value;
    forall n | n in DirectNames(h.cases) || n in Others(h)
      ensures Populated(MergeItems(st, items, from, to, useDefault, force), n) <==> Populated(to, n)
    {
      PopulatedAfter(st, items, from, to, useDefault, force, n);
      forall q | 0 <= q < |items|
        ensures n !in DroppedBy(st, items[q], from, to, useDefault)
        ensures Contributes(items[q], from, useDefault) ==> items[q].def.ident != n
      {
        ElsewhereDropsNone(st, items, it, from, to, useDefault, q, n);
      }
    }
  }

  lemma ElsewhereDropsNone(st: Strategy, items: seq<Item>, it: Item, from: Tree, to: Tree, useDefault: bool, q: nat,
                           n: string)
    requires Reached(items, it, from, to) && it.home.Some? && q < |items|
    requires Contributes(items[q], from, useDefault) ==> items[q].home != it.home
    requires n in DirectNames(it.home.value.cases) || n in Others(it.home.value)
    ensures n !in DroppedBy(st, items[q], from, to, useDefault)
    ensures Contributes(items[q], from, useDefault) ==> items[q].def.ident != n
  {
    ReachedFacts(items, it, from, to, q);
    DroppedInOthers(st, items[q], from, to, useDefault);
  }

  /** So the case that it holds is cleared as the merge says. */
  lemma ClearsSame(st: Strategy, items: seq<Item>, it: Item, from: Tree, to: Tree, useDefault: bool, force: bool)
    requires Reached(items, it, from, to) && st.Upsert? && it.home.Some? && Contributes(it, from, useDefault)
    requires !ChoiceSeen(items, it, from, useDefault) && ItemOk(it, from)
    ensures var cur := MergeItems(st, items, from, to, useDefault, force);
            ClearOther(cur, it.home) == Without(cur, DroppedBy(st, it, from, to, useDefault))
  {
    hide *;
    var h, cur := it.home.value, MergeItems(st, items, from, to, useDefault, force);
    UntouchedYet(st, items, it, from, to, useDefault, force);
    ChooseSameAt(h.cases, cur, to);
    ClearOtherSame(st, it, from, to, useDefault, cur);
  }

  lemma ChooseSameAt(cases: seq<Case>, s: Tree, t: Tree)
    requires SameAt(DirectNames(cases), s, t)
    ensures Choose(cases, s) == Choose(cases, t)
  {
    ChooseSame(cases, s, t);
  }

  lemma ClearOtherSame(st: Strategy, it: Item, from: Tree, to: Tree, useDefault: bool, cur: Tree)
    requires st.Upsert? && it.home.Some? && Contributes(it, from, useDefault)
    requires Choose(it.home.value.cases, cur) == Choose(it.home.value.cases, to)
             && SameAt(Others(it.home.value), cur, to)
    ensures ClearOther(cur, it.home) == Without(cur, DroppedBy(st, it, from, to, useDefault))
  {
    var h := it.home.value;
    WithoutNothing(cur);
    var j := Choose(h.cases, to);
    if j.Some? && j.value != h.mine {
      assert SameAt(LevelNames(h.cases[j.value].defs), cur, to);
      ActiveSame(h.cases[j.value].defs, cur, to, None);
    }
    hide Active, LevelNames, HasData;
  }

  /** One definition is written to the target, in which a child becomes `sub`. */
  ghost function Stepped(st: Strategy, it: Item, from: Tree, cur: Tree, useDefault: bool, sub: Tree): Tree {
    if !Contributes(it, from, useDefault) then cur else
      var cleared := if st.Upsert? then ClearOther(cur, it.home) else cur;
      var id := it.def.ident;
      if it.def.Leaf? then Tree(cleared.leafs[id := LeafValue(it.def, from, useDefault).value], cleared.subs)
      else Tree(cleared.leafs, cleared.subs[id := sub])
  }

  ghost function MergedChild(st: Strategy, it: Item, from: Tree, to: Tree, force: bool): Tree {
    var id := it.def.ident;
    if id in from.subs then MergeSub(st, it.def, from.subs[id], Sub(to, id), id !in to.subs, force) else EMPTY
  }

  /** Clearing, at the moment `it` is reached, drops what the merge says. */
  lemma ClearsDropped(st: Strategy, items: seq<Item>, it: Item, from: Tree, to: Tree, useDefault: bool, force: bool)
    requires st.Upsert? ==> Reached(items, it, from, to) && ItemOk(it, from)
    requires Contributes(it, from, useDefault)
    ensures var cur := MergeItems(st, items, from, to, useDefault, force);
            var d := DroppedBy(st, it, from, to, useDefault);
            (if st.Upsert? then ClearOther(cur, it.home) else cur)
              == Without(cur, d - Dropped(st, items, from, to, useDefault))
  {
    hide *;
    var cur := MergeItems(st, items, from, to, useDefault, force);
    var d, d0 := DroppedBy(st, it, from, to, useDefault), Dropped(st, items, from, to, useDefault);
    WithoutNothing(cur);
    if st.Upsert? && it.home.Some? {
      if ChoiceSeen(items, it, from, useDefault) {
        ClearedAlready(st, items, it, from, to, useDefault, force);
        assert d - d0 == {};
      } else {
        ClearsSame(st, items, it, from, to, useDefault, force);
        forall n | n in d ensures n !in d0 {
          DroppedIsNew(st, items, it, from, to, useDefault, n);
        }
        assert d - d0 == d;
      }
    } else {
      NoneDropped(st, it, from, to, useDefault, cur);
      assert d - d0 == {};
    }
  }

  lemma WithoutNothing(t: Tree)
    ensures Without(t, {}) == t
  {
  }

  lemma NoneDropped(st: Strategy, it: Item, from: Tree, to: Tree, useDefault: bool, cur: Tree)
    requires !st.Upsert? || it.home.None?
    ensures DroppedBy(st, it, from, to, useDefault) == {} && (it.home.None? ==> ClearOther(cur, it.home) == cur)
  {
  }

  lemma DroppedIsNew(st: Strategy, items: seq<Item>, it: Item, from: Tree, to: Tree, useDefault: bool, n: string)
    requires Reached(items, it, from, to) && it.home.Some? && !ChoiceSeen(items, it, from, useDefault)
    requires n in DroppedBy(st, it, from, to, useDefault)
    ensures n !in Dropped(st, items, from, to, useDefault)
  {
    DroppedInOthers(st, it, from, to, useDefault);
    forall q | 0 <= q < |items| ensures n !in DroppedBy(st, items[q], from, to, useDefault) {
      ElsewhereDropsNone(st, items, it, from, to, useDefault, q, n);
    }
  }

  lemma WrittenNotDropped(st: Strategy, items: seq<Item>, it: Item, from: Tree, to: Tree, useDefault: bool, force: bool,
                          n: string)
    requires Reached(items, it, from, to) && ItemOk(it, from)
    requires n in DroppedBy(st, it, from, to, useDefault)
    ensures n !in WrittenLeafs(items, from, useDefault) && n !in WrittenSubs(st, items, from, to, force)
  {
    WrittenLeafKeys(items, from, useDefault, n);
    WrittenSubKeys(st, items, from, to, force, n);
    DroppedInOthers(st, it, from, to, useDefault);
    forall q | 0 <= q < |items| ensures items[q].def.ident != n {
      ReachedFacts(items, it, from, to, q);
    }
  }

  lemma DroppedLast(st: Strategy, items: seq<Item>, it: Item, from: Tree, to: Tree, useDefault: bool)
    ensures Dropped(st, items + [it], from, to, useDefault)
         == Dropped(st, items, from, to, useDefault) + DroppedBy(st, it, from, to, useDefault)
  {
    var all := items + [it];
    forall n | n in Dropped(st, items, from, to, useDefault) ensures n in Dropped(st, all, from, to, useDefault) {
      var i :| 0 <= i < |items| && n in DroppedBy(st, items[i], from, to, useDefault);
      assert all[i] == items[i];
    }
    assert all[|items|] == it;
  }

  lemma WrittenLast(st: Strategy, items: seq<Item>, it: Item, from: Tree, to: Tree, useDefault: bool, force: bool)
    ensures WrittenLeafs(items + [it], from, useDefault)
            == WrittenLeafs(items, from, useDefault) + NewLeaf(it, from, useDefault)
    ensures WrittenSubs(st, items + [it], from, to, force)
            == WrittenSubs(st, items, from, to, force) + NewSub(st, it, from, to, force)
  {
    assert (items + [it])[..|items|] == items;
  }

  lemma MapMinusPlus<V>(t: map<string, V>, w: map<string, V>, x: map<string, V>, d0: set<string>, d: set<string>)
    requires w.Keys !! d
    ensures (((t - d0) + w) - (d - d0)) + x == (t - (d0 + d)) + (w + x)
  {
  }

  lemma MapMinusNothing<V>(t: map<string, V>, w: map<string, V>, d0: set<string>, d: set<string>)
    requires d == {}
    ensures (t - (d0 + d)) + (w + map[]) == (t - d0) + w
  {
    assert d0 + d == d0;
  }

  lemma MergeAdds(st: Strategy, items: seq<Item>, it: Item, from: Tree, to: Tree, useDefault: bool, force: bool)
    ensures MergeItems(st, items + [it], from, to, useDefault, force)
         == var d := Dropped(st, items, from, to, useDefault) + DroppedBy(st, it, from, to, useDefault);
            Tree((to.leafs - d) + (WrittenLeafs(items, from, useDefault) + NewLeaf(it, from, useDefault)),
                 (to.subs - d) + (WrittenSubs(st, items, from, to, force) + NewSub(st, it, from, to, force)))
  {
    DroppedLast(st, items, it, from, to, useDefault);
    WrittenLast(st, items, it, from, to, useDefault, force);
  }

  lemma StepAdds(st: Strategy, it: Item, from: Tree, to: Tree, cur: Tree, useDefault: bool, force: bool)
    requires Contributes(it, from, useDefault)
    ensures Stepped(st, it, from, cur, useDefault, MergedChild(st, it, from, to, force))
         == var cleared := if st.Upsert? then ClearOther(cur, it.home) else cur;
            Tree(cleared.leafs + NewLeaf(it, from, useDefault), cleared.subs + NewSub(st, it, from, to, force))
  {
    var cleared := if st.Upsert? then ClearOther(cur, it.home) else cur;
    hide ClearOther, MergeSub, LeafValue;
    var id := it.def.ident;
    if it.def.Leaf? {
      assert cleared.leafs[id := LeafValue(it.def, from, useDefault).value]
             == cleared.leafs + NewLeaf(it, from, useDefault);
      assert cleared.subs == cleared.subs + NewSub(st, it, from, to, force);
    } else {
      assert cleared.leafs == cleared.leafs + NewLeaf(it, from, useDefault);
      assert NewSub(st, it, from, to, force).Keys == {id};
      assert cleared.subs[id := NewSub(st, it, from, to, force)[id]] == cleared.subs + NewSub(st, it, from, to, force);
    }
  }

  /** One step of the walk takes the merge of the definitions visited so far to the merge of one more. */
  lemma MergeStep(st: Strategy, items: seq<Item>, it: Item, from: Tree, to: Tree, useDefault: bool, force: bool)
    requires st.Upsert? ==> Reached(items, it, from, to) && ItemOk(it, from)
    ensures var cur := MergeItems(st, items, from, to, useDefault, force);
            MergeItems(st, items + [it], from, to, useDefault, force)
            == Stepped(st, it, from, cur, useDefault, MergedChild(st, it, from, to, force))
  {
    var cur := MergeItems(st, items, from, to, useDefault, force);
    var d0 := Dropped(st, items, from, to, useDefault);
    var d := DroppedBy(st, it, from, to, useDefault);
    var wl := WrittenLeafs(items, from, useDefault);
    var ws := WrittenSubs(st, items, from, to, force);
    MergeAdds(st, items, it, from, to, useDefault, force);
    if Contributes(it, from, useDefault) {
      forall n | n in d ensures n !in wl && n !in ws {
        WrittenNotDropped(st, items, it, from, to, useDefault, force, n);
      }
      MapMinusPlus(to.leafs, wl, NewLeaf(it, from, useDefault), d0, d);
      MapMinusPlus(to.subs, ws, NewSub(st, it, from, to, force), d0, d);
      ClearsDropped(st, items, it, from, to, useDefault, force);
      StepAdds(st, it, from, to, cur, useDefault, force);
    } else {
      NothingDropped(st, it, from, to, useDefault);
      MapMinusNothing(to.leafs, wl, d0, d);
      MapMinusNothing(to.subs, ws, d0, d);
    }
  }

  lemma NothingDropped(st: Strategy, it: Item, from: Tree, to: Tree, useDefault: bool)
    requires !Contributes(it, from, useDefault)
    ensures DroppedBy(st, it, from, to, useDefault) == {}
  {
  }

  // ---------- rows ----------

  lemma {:induction false} UpsertAdmits(defs: seq<Def>, from: Tree, to: Tree)
    ensures Admits(Upsert, defs, from, to)
    decreases from
  {
    var items := Active(defs, from, None);
    forall i | 0 <= i < |items| && !items[i].def.Leaf? && items[i].def.ident in from.subs
      ensures AdmitsChild(Upsert, items[i].def, from.subs[items[i].def.ident], to)
    {
      var id := items[i].def.ident;
      match items[i].def
      case Container(_, sub) => UpsertAdmits(sub, from.subs[id], Sub(to, id));
      case _ =>
    }
  }

  lemma {:induction false} EmptyIsProper(defs: seq<Def>)
    ensures Proper(defs, EMPTY)
  {
    if defs != [] {
      EmptyIsProper(defs[1..]);
      if defs[0].Choice? {
        EmptyCases(defs[0].cases);
      }
    }
  }

  lemma {:induction false} EmptyCases(cases: seq<Case>)
    ensures CasesOk(cases, EMPTY) && CasesProper(cases, EMPTY)
  {
    if cases != [] {
      EmptyIsProper(cases[0].defs);
      EmptyCases(cases[1..]);
    }
  }
}
