/**
  The cases of a choice after an upsert into any target, also one that holds data of several of them: exactly which of
  them keep their data.
*/
module EditCases {
  import opened Wrappers
  import opened DataSchema
  import opened SchemaNames
  import opened EditSpec
  import opened EditStep
  import opened EditRun

  /** How many cases before the `j`-th hold data. */
  ghost function HeldBefore(cases: seq<Case>, t: Tree, j: nat): nat
    requires j <= |cases|
  {
    if j == 0 then 0 else HeldBefore(cases, t, j - 1) + if HasData(cases[j - 1], t) then 1 else 0
  }

  /** How many definitions of a case the source writes. */
  ghost function Writes(items: seq<Item>, home: Option<Home>, from: Tree, useDefault: bool): nat {
    if items == [] then 0 else
      var it := items[|items| - 1];
      var before := Writes(items[..|items| - 1], home, from, useDefault);
      before + if it.home == home && Contributes(it, from, useDefault) then 1 else 0
  }

  /** In the other cases no data is kept under the name of a choice, which is no data node (section 7.9 of RFC 7950). */
  ghost predicate NoChoiceData(h: Home, t: Tree) {
    forall c, k :: 0 <= c < |h.cases| && c != h.mine && 0 <= k < |h.cases[c].defs| && h.cases[c].defs[k].Choice? ==>
      !Populated(t, h.cases[c].defs[k].ident)
  }

  /** A case keeps its data after `c` of its choice's definitions have been written to the case `mine`. */
  ghost predicate Stays(h: Home, to: Tree, c: nat, j: nat)
    requires j < |h.cases|
  {
    HasData(h.cases[j], to) && (c == 0 || HeldBefore(h.cases, to, j) >= if j < h.mine then c else 1)
  }

  // ---------- counting cases ----------

  lemma {:induction false} ChooseIsFirst(cases: seq<Case>, t: Tree, i: nat, j: nat)
    requires i <= j < |cases| && HasData(cases[j], t)
    ensures ChooseFrom(cases, t, i).Some? && ChooseFrom(cases, t, i).value <= j
    decreases j - i
  {
    if !HasData(cases[i], t) {
      ChooseIsFirst(cases, t, i + 1, j);
    }
  }

  lemma {:induction false} BeforeGrows(cases: seq<Case>, t: Tree, i: nat, j: nat)
    requires i <= j <= |cases|
    ensures HeldBefore(cases, t, i) <= HeldBefore(cases, t, j)
    ensures i < j && HasData(cases[i], t) ==> HeldBefore(cases, t, i) < HeldBefore(cases, t, j)
  {
    if i < j {
      BeforeGrows(cases, t, i, j - 1);
    }
  }

  /** Where more than `c` cases come before, one of them has exactly `c` before itself. */
  lemma {:induction false} OneHas(cases: seq<Case>, t: Tree, j: nat, c: nat) returns (i: nat)
    requires j <= |cases| && c < HeldBefore(cases, t, j)
    ensures i < j && HasData(cases[i], t) && HeldBefore(cases, t, i) == c
  {
    if HasData(cases[j - 1], t) && HeldBefore(cases, t, j - 1) == c {
      i := j - 1;
    } else {
      i := OneHas(cases, t, j - 1, c);
    }
  }

  // ---------- one step ----------

  /** What is known of the choice `h` when `c` definitions of it have been written. */
  ghost predicate ChoiceAt(h: Home, to: Tree, cur: Tree, c: nat) {
    && h.mine < |h.cases|
    && (forall j :: 0 <= j < |h.cases| && j != h.mine ==> (HasData(h.cases[j], cur) <==> Stays(h, to, c, j)))
    && (HasData(h.cases[h.mine], cur) <==> c > 0 || HasData(h.cases[h.mine], to))
    && (forall n :: n in Others(h) && Populated(cur, n) ==> Populated(to, n))
  }

  /** Another definition leaves the choice alone. */
  lemma ElsewhereKeeps(items: seq<Item>, i: nat, q: nat, from: Tree, cur: Tree, useDefault: bool, sub: Tree)
    requires ItemsOk(items, from) && i < |items| && q < |items| && items[i].home.Some?
    requires items[q].home != items[i].home || !Contributes(items[q], from, useDefault)
    ensures var h, next := items[i].home.value, Stepped(Upsert, items[q], from, cur, useDefault, sub);
            SameAt(DirectNames(h.cases), next, cur) && SameAt(Others(h), next, cur)
  {
    var h, next := items[i].home.value, Stepped(Upsert, items[q], from, cur, useDefault, sub);
    if Contributes(items[q], from, useDefault) {
      if q < i {
        assert Apart(items[q], items[i]);
      } else {
        assert Apart(items[i], items[q]);
      }
      assert Spares(items[i], items[q]);
      forall n | n in DirectNames(h.cases) || n in Others(h) ensures SameName(next, cur, n) {
        SteppedKeeps(Upsert, items[q], from, cur, useDefault, sub, n);
      }
    }
  }

  lemma {:induction false} HasSame(cases: seq<Case>, s: Tree, t: Tree, j: nat)
    requires j < |cases| && SameAt(DirectNames(cases), s, t)
    ensures HasData(cases[j], s) <==> HasData(cases[j], t)
  {
    CaseInLevel(cases, j);
    forall k | 0 <= k < |cases[j].defs|
      ensures Populated(s, cases[j].defs[k].ident) <==> Populated(t, cases[j].defs[k].ident)
    {
      assert cases[j].defs[k].ident in Names(cases[j].defs);
    }
  }

  lemma ElsewhereAt(h: Home, to: Tree, cur: Tree, next: Tree, c: nat)
    requires ChoiceAt(h, to, cur, c) && SameAt(DirectNames(h.cases), next, cur) && SameAt(Others(h), next, cur)
    ensures ChoiceAt(h, to, next, c)
  {
    hide Stays, HasData, Others, DirectNames;
    forall j | 0 <= j < |h.cases| ensures HasData(h.cases[j], next) <==> HasData(h.cases[j], cur) {
      HasSame(h.cases, next, cur, j);
    }
  }

  /** Writing a definition of the choice drops the case that is found first, unless it is the one written to. */
  lemma HereDrops(it: Item, from: Tree, cur: Tree, useDefault: bool, sub: Tree, j: nat)
    requires ItemOk(it, from) && it.home.Some? && Contributes(it, from, useDefault)
    requires j < |it.home.value.cases| && j != it.home.value.mine
    requires forall k :: 0 <= k < |it.home.value.cases[j].defs| && it.home.value.cases[j].defs[k].Choice? ==>
               !Populated(cur, it.home.value.cases[j].defs[k].ident)
    ensures var h, next := it.home.value, Stepped(Upsert, it, from, cur, useDefault, sub);
            && (HasData(h.cases[j], next) <==> HasData(h.cases[j], cur) && Choose(h.cases, cur) != Some(j))
            && HasData(h.cases[h.mine], next)
  {
    var h, next := it.home.value, Stepped(Upsert, it, from, cur, useDefault, sub);
    var k :| 0 <= k < |h.cases[h.mine].defs| && h.cases[h.mine].defs[k] == it.def;
    assert Populated(next, it.def.ident);
    forall k | 0 <= k < |h.cases[j].defs|
      ensures Populated(next, h.cases[j].defs[k].ident) <==>
                Populated(cur, h.cases[j].defs[k].ident) && Choose(h.cases, cur) != Some(j)
    {
      HereDropsName(it, from, cur, useDefault, sub, j, k);
    }
  }

  lemma HereDropsName(it: Item, from: Tree, cur: Tree, useDefault: bool, sub: Tree, j: nat, k: nat)
    requires ItemOk(it, from) && it.home.Some? && Contributes(it, from, useDefault)
    requires j < |it.home.value.cases| && j != it.home.value.mine && k < |it.home.value.cases[j].defs|
    requires it.home.value.cases[j].defs[k].Choice? ==> !Populated(cur, it.home.value.cases[j].defs[k].ident)
    ensures var h, next := it.home.value, Stepped(Upsert, it, from, cur, useDefault, sub);
            var n := h.cases[j].defs[k].ident;
            Populated(next, n) <==> Populated(cur, n) && Choose(h.cases, cur) != Some(j)
  {
    var h := it.home.value;
    var n := h.cases[j].defs[k].ident;
    LevelHas(h.cases[j].defs, k);
    assert n in Others(h);
    var held := Choose(h.cases, cur);
    if held.Some? && held.value != h.mine {
      ActiveNames(h.cases[held.value].defs, cur, None);
      if held.value == j {
        if !h.cases[j].defs[k].Choice? {
          ActiveHas(h.cases[j].defs, cur, None, k);
        }
      } else if held.value < j {
        CasesApart(h.cases, held.value, j);
      } else {
        CasesApart(h.cases, j, held.value);
      }
    }
    hide Active, Others, LeafValue;
  }

  /** So one more definition of the choice has been written. */
  lemma HereAt(it: Item, from: Tree, to: Tree, cur: Tree, useDefault: bool, sub: Tree, c: nat)
    requires ItemOk(it, from) && it.home.Some? && Contributes(it, from, useDefault)
    requires ChoiceAt(it.home.value, to, cur, c) && NoChoiceData(it.home.value, to)
    ensures ChoiceAt(it.home.value, to, Stepped(Upsert, it, from, cur, useDefault, sub), c + 1)
  {
    var h, next := it.home.value, Stepped(Upsert, it, from, cur, useDefault, sub);
    forall j | 0 <= j < |h.cases| && j != h.mine
      ensures HasData(h.cases[j], next) <==> Stays(h, to, c + 1, j)
      ensures HasData(h.cases[h.mine], next)
    {
      StillNoChoice(h, to, cur, c, j);
      HereDrops(it, from, cur, useDefault, sub, j);
      FirstCase(h, to, cur, c, j);
    }
    var k :| 0 <= k < |h.cases[h.mine].defs| && h.cases[h.mine].defs[k] == it.def;
    assert Populated(next, it.def.ident);
    forall n | n in Others(h) && Populated(next, n) ensures Populated(to, n) {
      ClearOnlyDrops(cur, it.home, n);
    }
  }

  lemma ClearOnlyDrops(t: Tree, home: Option<Home>, n: string)
    ensures Populated(ClearOther(t, home), n) ==> Populated(t, n)
  {
  }

  lemma StillNoChoice(h: Home, to: Tree, cur: Tree, c: nat, j: nat)
    requires ChoiceAt(h, to, cur, c) && NoChoiceData(h, to) && j < |h.cases| && j != h.mine
    ensures forall k :: 0 <= k < |h.cases[j].defs| && h.cases[j].defs[k].Choice? ==>
              !Populated(cur, h.cases[j].defs[k].ident)
  {
    forall k | 0 <= k < |h.cases[j].defs| ensures h.cases[j].defs[k].ident in Others(h) {
      LevelHas(h.cases[j].defs, k);
    }
  }

  /** The case found first is the one with as many others before it as have been dropped. */
  lemma FirstCase(h: Home, to: Tree, cur: Tree, c: nat, j: nat)
    requires ChoiceAt(h, to, cur, c) && j < |h.cases| && j != h.mine
    ensures Stays(h, to, c + 1, j) <==> HasData(h.cases[j], cur) && Choose(h.cases, cur) != Some(j)
  {
    if HasData(h.cases[j], cur) {
      ChooseIsFirst(h.cases, cur, 0, j);
      var first := Choose(h.cases, cur).value;
      if j < h.mine || c == 0 {
        if c < HeldBefore(h.cases, to, j) {
          var i := OneHas(h.cases, to, j, c);
          assert HasData(h.cases[i], cur);
          ChooseIsFirst(h.cases, cur, 0, i);
        } else if first < j {
          BeforeGrows(h.cases, to, first, j);
        }
      } else {
        ChooseIsFirst(h.cases, cur, 0, h.mine);
      }
    }
  }

  // ---------- the whole walk ----------

  lemma {:induction false} ChoiceAfter(items: seq<Item>, i: nat, from: Tree, to: Tree, useDefault: bool, force: bool,
                                       n: nat)
    requires ItemsOk(items, from) && i < |items| && items[i].home.Some? && n <= |items|
    requires NoChoiceData(items[i].home.value, to)
    ensures ChoiceAt(items[i].home.value, to, EditedItems(Upsert, items[..n], from, to, useDefault, force),
                     Writes(items[..n], items[i].home, from, useDefault))
    decreases n
  {
    hide *;
    ItemAt(items, from, i);
    if n == 0 {
      EditedStart(items, items[i].home, from, to, useDefault, force);
      ChoiceBefore(items[i].home.value, to);
    } else {
      var k := n - 1;
      ChoiceAfter(items, i, from, to, useDefault, force, k);
      EditedNext(Upsert, items, k, from, to, useDefault, force);
      WritesNext(items, k, items[i].home, from, useDefault);
      var cur := EditedItems(Upsert, items[..k], from, to, useDefault, force);
      ChoiceNext(items, i, from, to, cur, useDefault, force, k, Writes(items[..k], items[i].home, from, useDefault));
    }
  }

  lemma EditedStart(items: seq<Item>, home: Option<Home>, from: Tree, to: Tree, useDefault: bool, force: bool)
    ensures EditedItems(Upsert, items[..0], from, to, useDefault, force) == to
    ensures Writes(items[..0], home, from, useDefault) == 0
  {
  }

  lemma ChoiceNext(items: seq<Item>, i: nat, from: Tree, to: Tree, cur: Tree, useDefault: bool, force: bool, n: nat,
                   c: nat)
    requires ItemsOk(items, from) && i < |items| && items[i].home.Some? && n < |items|
    requires NoChoiceData(items[i].home.value, to) && ChoiceAt(items[i].home.value, to, cur, c)
    ensures ChoiceAt(items[i].home.value, to, StepTree(Upsert, items[n], from, cur, useDefault, force),
                     c + if items[n].home == items[i].home && Contributes(items[n], from, useDefault) then 1 else 0)
  {
    hide *;
    var h, it := items[i].home.value, items[n];
    var sub := EditedChild(Upsert, it, from, cur, force);
    StepIs(it, from, cur, useDefault, force);
    if it.home == items[i].home && Contributes(it, from, useDefault) {
      ItemAt(items, from, n);
      HereAt(it, from, to, cur, useDefault, sub, c);
    } else {
      ElsewhereKeeps(items, i, n, from, cur, useDefault, sub);
      ElsewhereAt(h, to, cur, Stepped(Upsert, it, from, cur, useDefault, sub), c);
    }
  }

  lemma ChoiceBefore(h: Home, to: Tree)
    requires h.mine < |h.cases|
    ensures ChoiceAt(h, to, to, 0)
  {
  }

  lemma ItemAt(items: seq<Item>, from: Tree, n: nat)
    requires ItemsOk(items, from) && n < |items|
    ensures ItemOk(items[n], from) && (items[n].home.Some? ==> items[n].home.value.mine < |items[n].home.value.cases|)
  {
  }

  lemma StepIs(it: Item, from: Tree, cur: Tree, useDefault: bool, force: bool)
    ensures StepTree(Upsert, it, from, cur, useDefault, force)
         == Stepped(Upsert, it, from, cur, useDefault, EditedChild(Upsert, it, from, cur, force))
  {
  }

  lemma WritesNext(items: seq<Item>, n: nat, home: Option<Home>, from: Tree, useDefault: bool)
    requires n < |items|
    ensures Writes(items[..n + 1], home, from, useDefault) == Writes(items[..n], home, from, useDefault)
                 + if items[n].home == home && Contributes(items[n], from, useDefault) then 1 else 0
  {
    assert items[..n + 1][..n] == items[..n];
  }

  lemma {:induction false} WritesSome(items: seq<Item>, i: nat, from: Tree, useDefault: bool)
    requires i < |items| && Contributes(items[i], from, useDefault)
    ensures Writes(items, items[i].home, from, useDefault) > 0
    decreases |items|
  {
    if i < |items| - 1 {
      assert items[..|items| - 1][i] == items[i];
      WritesSome(items[..|items| - 1], i, from, useDefault);
    }
  }

  /**
    Writing to one case of a choice leaves data of another one exactly if too many come before it: for a case ahead of
    the one written to, as many as definitions are written, for a later one any.
  */
  lemma CasesLeft(defs: seq<Def>, from: Tree, to: Tree, created: bool, force: bool, i: nat, j: nat)
    requires Plain(defs) && i < |Active(defs, from, None)| && Active(defs, from, None)[i].home.Some?
    requires Contributes(Active(defs, from, None)[i], from, Defaults(Upsert, created, force))
    requires var h := Active(defs, from, None)[i].home.value; j < |h.cases| && j != h.mine && NoChoiceData(h, to)
    ensures var items, u := Active(defs, from, None), Defaults(Upsert, created, force);
            var h, after := items[i].home.value, Edited(Upsert, defs, from, to, created, force);
            && h.mine < |h.cases| && HasData(h.cases[h.mine], after)
            && (HasData(h.cases[j], after) <==>
                  HasData(h.cases[j], to)
                  && HeldBefore(h.cases, to, j) >= if j < h.mine then Writes(items, items[i].home, from, u) else 1)
  {
    var items, u := Active(defs, from, None), Defaults(Upsert, created, force);
    ActiveOk(defs, from, None);
    ChoiceAfter(items, i, from, to, u, force, |items|);
    WritesSome(items, i, from, u);
    assert items[..|items|] == items;
    hide Active, Plain, ItemsOk, HasData, HeldBefore, Writes, NoChoiceData;
  }

  /** What the upsert has made of the choice of its `i`-th definition. */
  lemma ChoiceEdited(defs: seq<Def>, from: Tree, to: Tree, force: bool, i: nat)
    requires Plain(defs) && i < |Active(defs, from, None)| && Active(defs, from, None)[i].home.Some?
    requires Contributes(Active(defs, from, None)[i], from, force)
    requires NoChoiceData(Active(defs, from, None)[i].home.value, to)
    ensures var items := Active(defs, from, None);
            var after := Edited(Upsert, defs, from, to, false, force);
            && ChoiceAt(items[i].home.value, to, after, Writes(items, items[i].home, from, force))
            && NoChoiceData(items[i].home.value, after)
            && Writes(items, items[i].home, from, force) > 0
  {
    var items := Active(defs, from, None);
    ActiveOk(defs, from, None);
    ChoiceAfter(items, i, from, to, force, force, |items|);
    WritesSome(items, i, from, force);
    assert items[..|items|] == items;
    hide Active, Plain, ItemsOk, HasData, Writes;
    var h, after := items[i].home.value, Edited(Upsert, defs, from, to, false, force);
    forall c, k | 0 <= c < |h.cases| && c != h.mine && 0 <= k < |h.cases[c].defs| && h.cases[c].defs[k].Choice?
      ensures !Populated(after, h.cases[c].defs[k].ident)
    {
      StillNoChoice(h, to, after, Writes(items, items[i].home, from, force), c);
    }
  }

  /** The same upsert once more finds the same cases with data exactly if none ahead of the one written to is left. */
  lemma SettledExactly(defs: seq<Def>, from: Tree, to: Tree, force: bool, i: nat)
    requires Plain(defs) && i < |Active(defs, from, None)| && Active(defs, from, None)[i].home.Some?
    requires Contributes(Active(defs, from, None)[i], from, force)
    requires NoChoiceData(Active(defs, from, None)[i].home.value, to)
    ensures var items := Active(defs, from, None);
            var h := items[i].home.value;
            var once := Edited(Upsert, defs, from, to, false, force);
            var twice := Edited(Upsert, defs, from, once, false, force);
            (forall j :: 0 <= j < |h.cases| ==> (HasData(h.cases[j], twice) <==> HasData(h.cases[j], once)))
            <==> !exists j :: 0 <= j < h.mine && j < |h.cases| && HasData(h.cases[j], to)
                              && HeldBefore(h.cases, to, j) >= Writes(items, items[i].home, from, force)
  {
    var items := Active(defs, from, None);
    var h, c := items[i].home.value, Writes(items, items[i].home, from, force);
    var once := Edited(Upsert, defs, from, to, false, force);
    ChoiceEdited(defs, from, to, force, i);
    ChoiceEdited(defs, from, once, force, i);
    var twice := Edited(Upsert, defs, from, once, false, force);
    hide Active, Plain, Edited, Writes, NoChoiceData, HasData;
    Settled(h, to, once, twice, c);
  }

  lemma Settled(h: Home, to: Tree, once: Tree, twice: Tree, c: nat)
    requires c > 0 && ChoiceAt(h, to, once, c) && ChoiceAt(h, once, twice, c)
    ensures (forall j :: 0 <= j < |h.cases| ==> (HasData(h.cases[j], twice) <==> HasData(h.cases[j], once)))
            <==> !exists j :: 0 <= j < h.mine && j < |h.cases| && HasData(h.cases[j], to)
                              && HeldBefore(h.cases, to, j) >= c
  {
    hide HasData, Others;
    if j :| 0 <= j < h.mine && j < |h.cases| && HasData(h.cases[j], to) && HeldBefore(h.cases, to, j) >= c {
      assert HasData(h.cases[j], once);
      ChooseIsFirst(h.cases, once, 0, j);
      var first := Choose(h.cases, once).value;
      NoneBefore(h.cases, once, first);
      assert !HasData(h.cases[first], twice);
    } else {
      forall j | 0 <= j < |h.cases| && j != h.mine ensures HasData(h.cases[j], twice) <==> HasData(h.cases[j], once) {
        if j > h.mine {
          BeforeGrows(h.cases, once, h.mine, j);
        }
      }
    }
  }

  /** No case before the one found holds data. */
  lemma {:induction false} NoneBefore(cases: seq<Case>, t: Tree, first: nat)
    requires Choose(cases, t) == Some(first)
    ensures HeldBefore(cases, t, first) == 0
  {
    if HeldBefore(cases, t, first) > 0 {
      var i := OneHas(cases, t, first, 0);
      ChooseIsFirst(cases, t, 0, i);
    }
  }
}
