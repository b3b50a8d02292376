/** The names of the definitions of a container, and schemas in which each of them is used once. */
module SchemaNames {
  import opened Wrappers
  import opened DataSchema

  /** The names of the definitions of a container, those in choices and of the choices included. */
  ghost function LevelNames(defs: seq<Def>): set<string> {
    if defs == [] then {} else LevelOne(defs[0]) + LevelNames(defs[1..])
  }

  ghost function LevelOne(d: Def): set<string> {
    match d
    case Choice(id, cases) => {id} + LevelCases(cases)
    case _ => {d.ident}
  }

  ghost function LevelCases(cases: seq<Case>): set<string> {
    if cases == [] then {} else LevelNames(cases[0].defs) + LevelCases(cases[1..])
  }

  /** A container's own names are each used once; other levels may use them again. */
  ghost predicate Plain(defs: seq<Def>) {
    defs == [] || (PlainOne(defs[0]) && Plain(defs[1..]) && LevelOne(defs[0]) !! LevelNames(defs[1..]))
  }

  ghost predicate PlainOne(d: Def) {
    match d
    case Leaf(_, _) => true
    case Container(_, defs) => Plain(defs)
    case List(_, defs) => Plain(defs)
    case Choice(id, cases) => PlainCases(cases) && id !in LevelCases(cases)
  }

  ghost predicate PlainCases(cases: seq<Case>) {
    cases == [] || (Plain(cases[0].defs) && PlainCases(cases[1..])
                    && LevelNames(cases[0].defs) !! LevelCases(cases[1..]))
  }

  ghost predicate PlainItems(items: seq<Item>) {
    && (forall i :: 0 <= i < |items| ==> !items[i].def.Choice? && PlainOne(items[i].def))
    && (forall i, j :: 0 <= i < j < |items| ==> items[i].def.ident != items[j].def.ident)
  }

  ghost predicate Within(items: seq<Item>, names: set<string>) {
    forall i :: 0 <= i < |items| ==> items[i].def.ident in names
  }

  lemma {:induction false} ActivePlain(defs: seq<Def>, t: Tree, home: Option<Home>)
    requires Plain(defs)
    ensures PlainItems(Active(defs, t, home)) && Within(Active(defs, t, home), LevelNames(defs))
  {
    if defs != [] {
      ActivePlain(defs[1..], t, home);
      ActiveOnePlain(defs[0], t, home);
      PlainAppend(ActiveOne(defs[0], t, home), Active(defs[1..], t, home), LevelOne(defs[0]), LevelNames(defs[1..]));
    }
  }

  lemma {:induction false} ActiveOnePlain(d: Def, t: Tree, home: Option<Home>)
    requires PlainOne(d)
    ensures PlainItems(ActiveOne(d, t, home)) && Within(ActiveOne(d, t, home), LevelOne(d))
  {
    if d.Choice? && Choose(d.cases, t).Some? {
      var c := Choose(d.cases, t).value;
      CasePlain(d.cases, c);
      ActivePlain(d.cases[c].defs, t, Some(Home(d.cases, c)));
    }
  }

  lemma {:induction false} CasePlain(cases: seq<Case>, c: nat)
    requires PlainCases(cases) && c < |cases|
    ensures Plain(cases[c].defs) && LevelNames(cases[c].defs) <= LevelCases(cases)
  {
    if c > 0 {
      CasePlain(cases[1..], c - 1);
    }
  }

  lemma PlainAppend(a: seq<Item>, b: seq<Item>, names: set<string>, others: set<string>)
    requires PlainItems(a) && Within(a, names) && PlainItems(b) && Within(b, others) && names !! others
    ensures PlainItems(a + b) && Within(a + b, names + others)
  {
  }

  lemma PlainRest(items: seq<Item>)
    requires PlainItems(items) && items != []
    ensures PlainItems(items[1..]) && forall i :: 0 <= i < |items[1..]| ==>
              items[1..][i].def.ident != items[0].def.ident
  {
  }

  ghost function Idents(items: seq<Item>): set<string> {
    set i | 0 <= i < |items| :: items[i].def.ident
  }

  lemma IdentsAppend(a: seq<Item>, b: seq<Item>)
    ensures Idents(a + b) == Idents(a) + Idents(b)
  {
    forall k ensures k in Idents(a + b) <==> k in Idents(a) || k in Idents(b) {
      if k in Idents(a) {
        var i :| 0 <= i < |a| && a[i].def.ident == k;
        assert (a + b)[i] == a[i];
      }
      if k in Idents(b) {
        var i :| 0 <= i < |b| && b[i].def.ident == k;
        assert (a + b)[|a| + i] == b[i];
      }
    }
  }

  lemma LevelParts(defs: seq<Def>)
    requires defs != []
    ensures LevelNames(defs) == LevelOne(defs[0]) + LevelNames(defs[1..]) && defs[0].ident in LevelOne(defs[0])
    ensures !defs[0].Choice? ==> LevelOne(defs[0]) == {defs[0].ident}
  {
    match defs[0] {
      case Leaf(_, _) =>
      case Container(_, _) =>
      case List(_, _) =>
      case Choice(_, _) =>
    }
  }

  lemma {:induction false} LevelHas(defs: seq<Def>, k: nat)
    requires k < |defs|
    ensures defs[k].ident in LevelNames(defs)
  {
    if k > 0 {
      LevelHas(defs[1..], k - 1);
    }
  }

  lemma {:induction false} CasesApart(cases: seq<Case>, a: nat, b: nat)
    requires PlainCases(cases) && a < b < |cases|
    ensures LevelNames(cases[a].defs) !! LevelNames(cases[b].defs)
  {
    if a == 0 {
      CasePlain(cases[1..], b - 1);
    } else {
      CasesApart(cases[1..], a - 1, b - 1);
    }
  }

  lemma {:induction false} ActiveHas(defs: seq<Def>, o: Tree, home: Option<Home>, k: nat)
    requires k < |defs| && !defs[k].Choice?
    ensures defs[k].ident in Idents(Active(defs, o, home))
  {
    IdentsAppend(ActiveOne(defs[0], o, home), Active(defs[1..], o, home));
    if k == 0 {
      assert ActiveOne(defs[0], o, home)[0].def == defs[0];
    } else {
      ActiveHas(defs[1..], o, home, k - 1);
    }
  }
}
