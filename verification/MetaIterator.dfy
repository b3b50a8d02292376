/** The look-ahead iterator over the definitions of a container: node/container_meta_list.go. */
module MetaIterator {
  import opened Wrappers
  import opened DataSchema

  ghost function Weight(defs: seq<Def>): nat {
    if defs == [] then 0 else WeightOne(defs[0]) + Weight(defs[1..])
  }

  ghost function WeightOne(d: Def): nat {
    match d
    case Choice(_, cases) => 1 + WeightCases(cases)
    case _ => 1
  }

  ghost function WeightCases(cases: seq<Case>): nat {
    if cases == [] then 0 else 2 + Weight(cases[0].defs) + WeightCases(cases[1..])
  }

  lemma {:induction false} CaseWeight(cases: seq<Case>, i: nat)
    requires i < |cases|
    ensures 2 + Weight(cases[i].defs) <= WeightCases(cases)
  {
    if i > 0 {
      assert cases[1..][i - 1] == cases[i];
      CaseWeight(cases[1..], i - 1);
    }
  }

  lemma MainEmpty(t: Tree, home: Option<Home>)
    ensures Active([], t, home) == []
  {
  }

  lemma MainSplit(defs: seq<Def>, t: Tree, home: Option<Home>)
    requires defs != []
    ensures Active(defs, t, home) == ActiveOne(defs[0], t, home) + Active(defs[1..], t, home)
    ensures Weight(defs) == WeightOne(defs[0]) + Weight(defs[1..])
  {
  }

  class ContainerMetaList {
    var next: Option<Item>
    var main: seq<Def>   // what is left of the definitions iterated over
    const home: Option<Home>
    var choiceCase: ContainerMetaList?
    const data: Tree     // answers which case of a choice holds data
    ghost var Rest: seq<Item>  // what is left to yield
    ghost var Work: nat
    ghost var Repr: set<ContainerMetaList>

    ghost predicate Shape()
      reads this, Repr
      decreases Repr, 0
    {
      && this in Repr
      && (choiceCase != null ==>
            choiceCase in Repr && choiceCase.Repr < Repr && this !in choiceCase.Repr
            && choiceCase.data == data && choiceCase.Valid())
      && Work == 1 + Weight(main) + if choiceCase == null then 0 else choiceCase.Work
    }

    /** What is left to yield after `next`. */
    ghost function Pending(): seq<Item>
      reads this, Repr
      requires Shape()
      decreases Repr, 1
    {
      (if choiceCase == null then [] else choiceCase.Rest) + Active(main, data, home)
    }

    ghost predicate Valid()
      reads this, Repr
      decreases Repr, 2
    {
      && Shape() && Work >= 1
      && match next
         case None => Rest == [] && Pending() == []
         case Some(m) => !m.def.Choice? && Rest == [m] + Pending()
    }

    constructor (data: Tree, defs: seq<Def>, home: Option<Home>)
      ensures Valid() && fresh(Repr)
      ensures this.data == data && Rest == Active(defs, data, home)
      ensures Work <= 1 + Weight(defs)
      decreases 2 + Weight(defs), 0
    {
      this.data, this.home, main, choiceCase, next := data, home, defs, null, None;
      Repr, Work := {this}, 1 + Weight(defs);
      new;
      LookAhead();
    }

    /** `m` was handed out as item `n` of `items`, and the items after it are left. */
    ghost predicate At(items: seq<Item>, n: nat, m: Option<Item>)
      reads this, Repr
    {
      Valid() && if m.None? then n == |items| else n < |items| && m.value == items[n] && Rest == items[n + 1..]
    }

    lemma AtItem(items: seq<Item>, n: nat, m: Option<Item>)
      requires At(items, n, m) && m.Some?
      ensures Valid() && n < |items| && m.value == items[n] && Rest == items[n + 1..]
    {
    }

    lemma AtEnd(items: seq<Item>, n: nat, m: Option<Item>)
      requires At(items, n, m) && m.None?
      ensures n == |items|
    {
    }

    method NextOf(ghost items: seq<Item>, ghost n: nat) returns (m: Option<Item>)
      requires Valid() && n <= |items| && Rest == items[n..]
      modifies Repr
      ensures At(items, n, m) && fresh(Repr - old(Repr))
    {
      m := NextMeta();
    }

    method NextMeta() returns (m: Option<Item>)
      requires Valid()
      modifies Repr
      ensures Valid() && fresh(Repr - old(Repr)) && Work <= old(Work)
      ensures m == if old(Rest) == [] then None else Some(old(Rest)[0])
      ensures m.Some? ==> !m.value.def.Choice?
      ensures Rest == if old(Rest) == [] then [] else old(Rest)[1..]
      decreases Work, 2
    {
      m := next;
      LookAhead();
    }

    method LookAhead()
      requires Shape()
      modifies Repr
      ensures Valid() && fresh(Repr - old(Repr)) && Work <= old(Work)
      ensures Rest == old(Pending())
      decreases Work, 1
    {
      hide Active, Weight, WeightCases, ChooseFrom, HasData;
      next := None;
      ghost var rest := Pending();
      while true
        invariant Shape() && fresh(Repr - old(Repr)) && Work <= old(Work)
        invariant next == None && Pending() == rest
        decreases Work
      {
        var m;
        if choiceCase != null {
          m := TakeFromCase();
          if m.None? {
            continue;
          }
        } else if main != [] {
          var it := TakeFromMain();
          m := Some(it);
        } else {
          MainEmpty(data, home);
          break;
        }
        if m.value.def.Choice? {
          Descend(m.value.def.cases);
        } else {
          next := m;
          assert [m.value] + Pending() == rest;
          break;
        }
      }
      Rest := rest;
    }

    /** The next definition of the case being visited; the case is left when it has none. */
    method TakeFromCase() returns (m: Option<Item>)
      requires Shape() && choiceCase != null && next == None
      modifies Repr
      ensures Shape() && fresh(Repr - old(Repr)) && next == None
      ensures match m
              case None => Pending() == old(Pending()) && Work < old(Work)
              case Some(d) => [d] + Pending() == old(Pending()) && !d.def.Choice? && Work <= old(Work)
      decreases Work, 0
    {
      hide Active, Weight;
      m := choiceCase.NextMeta();
      Repr := Repr + choiceCase.Repr;
      Work := 1 + Weight(main) + choiceCase.Work;
      if m.None? {
        Work := 1 + Weight(main);
        choiceCase := null;
      }
    }

    /** The next definition of the container or case itself. */
    method TakeFromMain() returns (m: Item)
      requires Shape() && choiceCase == null && next == None && main != []
      modifies this
      ensures Shape() && Repr == old(Repr) && choiceCase == null && next == None
      ensures m == Item(old(main)[0], home)
      ensures old(Pending()) == ActiveOne(m.def, data, home) + Pending() && Pending() == Active(main, data, home)
      ensures Work + WeightOne(m.def) == old(Work)
    {
      MainSplit(main, data, home);
      hide Active, Weight, WeightOne, ActiveOne;
      m := Item(main[0], home);
      main := main[1..];
      Work := 1 + Weight(main);
    }

    /** Goes on with the chosen case of a choice, if there is one. */
    method Descend(cases: seq<Case>)
      requires Shape() && choiceCase == null && next == None
      modifies this
      ensures Shape() && fresh(Repr - old(Repr)) && next == None && main == old(main)
      ensures Pending() == (match Choose(cases, data)
                            case None => []
                            case Some(i) => Active(cases[i].defs, data, Some(Home(cases, i))))
                              + Active(main, data, home)
      ensures Work < 1 + WeightCases(cases) + old(Work)
      decreases 1 + WeightCases(cases), 0
    {
      var chosen := Choose(cases, data);
      if chosen.Some? {
        CaseWeight(cases, chosen.value);
        choiceCase := new ContainerMetaList(data, cases[chosen.value].defs, Some(Home(cases, chosen.value)));
        Repr := Repr + choiceCase.Repr;
        Work := 1 + Weight(main) + choiceCase.Work;
      }
    }
  }
}
