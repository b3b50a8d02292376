/**
  Trees as JSON: the text of a tree as a sequence of tokens, how that text is read, and that reading gives the tree
  back. Strings within the text are the subject of JsonString.
*/
module JsonText {
  import opened Wrappers
  import opened DataSchema
  import opened SchemaNames
  import opened DataTree

  datatype Token = Open | Close | OpenList | CloseList | Comma | Named(ident: string) | Quoted(value: string)

  datatype Json = Text(value: string) | Object(members: seq<Member>) | Array(items: seq<Json>)

  datatype Member = Member(ident: string, value: Json)

  // ---------- the JSON of a tree ----------

  ghost function JsonOf(defs: seq<Def>, t: Data, created: bool): seq<Member>
    decreases t, 2, 0
  {
    JsonItems(Visited(defs, t), t, created)
  }

  ghost function JsonItems(items: seq<Item>, t: Data, created: bool): seq<Member>
    decreases t, 1, |items|
  {
    if items == [] then [] else JsonOne(items[0].def, t, created) + JsonItems(items[1..], t, created)
  }

  ghost function JsonOne(d: Def, t: Data, created: bool): (r: seq<Member>)
    ensures |r| <= 1 && (r != [] ==> r[0].ident == d.ident)
    decreases t, 0, 0
  {
    match d
    case Leaf(id, _) =>
      var v := ValueOf(d, t, created);
      if v.Some? then [Member(id, Text(v.value))] else []
    case Container(id, defs) => if HasSub(t, id) then [Member(id, Object(JsonOf(defs, t.subs[id], true)))] else []
    case List(id, defs) => if HasSub(t, id) then [Member(id, Array(JsonRows(defs, t.subs[id], 0)))] else []
    case Choice(_, _) => []
  }

  ghost function JsonRows(defs: seq<Def>, t: Data, i: nat): (r: seq<Json>)
    requires i <= RowCount(t)
    ensures |r| == RowCount(t) - i
    decreases t, 0, RowCount(t) - i
  {
    if i == RowCount(t) then [] else [Object(JsonOf(defs, t.rows[i].data, true))] + JsonRows(defs, t, i + 1)
  }

  // ---------- the text of JSON ----------

  ghost function Print(j: Json): seq<Token>
    decreases j
  {
    match j
    case Text(v) => [Quoted(v)]
    case Object(ms) => [Open] + (Members(ms, true) + [Close])
    case Array(items) => [OpenList] + (Items(items, true) + [CloseList])
  }

  /** Members with commas between them, and before them unless they come first. */
  ghost function Members(ms: seq<Member>, first: bool): seq<Token>
    decreases ms
  {
    if ms == [] then [] else
      (if first then [] else [Comma]) + ([Named(ms[0].ident)] + (Print(ms[0].value) + Members(ms[1..], false)))
  }

  ghost function Items(items: seq<Json>, first: bool): seq<Token>
    decreases items
  {
    if items == [] then [] else (if first then [] else [Comma]) + (Print(items[0]) + Items(items[1..], false))
  }

  // ---------- reading text ----------

  datatype Read<T> = Got(value: T, rest: seq<Token>) | Bad

  ghost function ReadValue(s: seq<Token>): (r: Read<Json>)
    ensures r.Got? ==> |r.rest| < |s|
    decreases |s|, 0
  {
    if s == [] then Bad
    else
      match s[0]
      case Quoted(v) => Got(Text(v), s[1..])
      case Open =>
        (match ReadMembers(s[1..], true)
         case Bad => Bad
         case Got(ms, rest) => Got(Object(ms), rest))
      case OpenList =>
        (match ReadItems(s[1..], true)
         case Bad => Bad
         case Got(items, rest) => Got(Array(items), rest))
      case _ => Bad
  }

  /** Up to the closing brace. */
  ghost function ReadMembers(s: seq<Token>, first: bool): (r: Read<seq<Member>>)
    ensures r.Got? ==> |r.rest| < |s|
    decreases |s|, 1
  {
    if s == [] then Bad
    else if s[0].Close? then Got([], s[1..])
    else
      var at := if first then s else s[1..];
      if (!first && !s[0].Comma?) || at == [] || !at[0].Named? then Bad
      else
        match ReadValue(at[1..])
        case Bad => Bad
        case Got(v, rest) =>
          match ReadMembers(rest, false)
          case Bad => Bad
          case Got(ms, rest2) => Got([Member(at[0].ident, v)] + ms, rest2)
  }

  /** Up to the closing bracket. */
  ghost function ReadItems(s: seq<Token>, first: bool): (r: Read<seq<Json>>)
    ensures r.Got? ==> |r.rest| < |s|
    decreases |s|, 1
  {
    if s == [] then Bad
    else if s[0].CloseList? then Got([], s[1..])
    else
      var at := if first then s else s[1..];
      if !first && !s[0].Comma? then Bad
      else
        match ReadValue(at)
        case Bad => Bad
        case Got(v, rest) =>
          match ReadItems(rest, false)
          case Bad => Bad
          case Got(items, rest2) => Got([v] + items, rest2)
  }

  /** Text is read as the JSON it was printed from, whatever follows. */
  lemma {:induction false} ReadPrinted(j: Json, rest: seq<Token>)
    ensures ReadValue(Print(j) + rest) == Got(j, rest)
    decreases j
  {
    var s := Print(j) + rest;
    match j
    case Text(v) => assert s[1..] == rest;
    case Object(ms) =>
      assert s[1..] == Members(ms, true) + ([Close] + rest);
      ReadPrintedMembers(ms, true, rest);
    case Array(items) =>
      assert s[1..] == Items(items, true) + ([CloseList] + rest);
      ReadPrintedItems(items, true, rest);
  }

  lemma {:induction false} ReadPrintedMembers(ms: seq<Member>, first: bool, rest: seq<Token>)
    ensures ReadMembers(Members(ms, first) + ([Close] + rest), first) == Got(ms, rest)
    decreases ms
  {
    var end := [Close] + rest;
    var s := Members(ms, first) + end;
    if ms == [] {
      assert s == end && end[1..] == rest;
    } else {
      var more := Members(ms[1..], false) + end;
      MembersAhead(ms, first, end);
      ReadPrinted(ms[0].value, more);
      ReadPrintedMembers(ms[1..], false, rest);
      assert [ms[0]] + ms[1..] == ms && Member(ms[0].ident, ms[0].value) == ms[0];
    }
  }

  lemma MembersAhead(ms: seq<Member>, first: bool, end: seq<Token>)
    requires ms != []
    ensures var s := Members(ms, first) + end;
            && s != [] && !s[0].Close? && (!first ==> s[0].Comma?)
            && var at := if first then s else s[1..];
               at != [] && at[0] == Named(ms[0].ident)
                 && at[1..] == Print(ms[0].value) + (Members(ms[1..], false) + end)
  {
    var value, more := Print(ms[0].value), Members(ms[1..], false);
    assert Members(ms, first) == (if first then [] else [Comma]) + ([Named(ms[0].ident)] + (value + more));
    hide *;
    NamedFirst(Named(ms[0].ident), value, more, end);
  }

  lemma NamedFirst(named: Token, value: seq<Token>, more: seq<Token>, end: seq<Token>)
    ensures ([] + ([named] + (value + more))) + end == [named] + (value + (more + end))
    ensures ([Comma] + ([named] + (value + more))) + end == [Comma] + ([named] + (value + (more + end)))
  {
  }

  lemma {:induction false} ReadPrintedItems(items: seq<Json>, first: bool, rest: seq<Token>)
    ensures ReadItems(Items(items, first) + ([CloseList] + rest), first) == Got(items, rest)
    decreases items
  {
    var end := [CloseList] + rest;
    var s := Items(items, first) + end;
    if items == [] {
      assert s == end && end[1..] == rest;
    } else {
      var more := Items(items[1..], false) + end;
      var value := Print(items[0]) + more;
      assert s == (if first then [] else [Comma]) + value;
      assert ([Comma] + value)[1..] == value && [] + value == value;
      PrintStarts(items[0]);
      ReadPrinted(items[0], more);
      ReadPrintedItems(items[1..], false, rest);
      assert [items[0]] + items[1..] == items;
    }
  }

  lemma PrintStarts(j: Json)
    ensures Print(j) != [] && (Print(j)[0].Quoted? || Print(j)[0].Open? || Print(j)[0].OpenList?)
  {
  }

  // ---------- the tree of JSON ----------

  /** What a decoder keeps under a name: the last member of that name. */
  ghost function Lookup(ms: seq<Member>, ident: string): (r: Option<Json>)
    ensures r.Some? <==> ident in MemberNames(ms)
    ensures r.Some? ==> exists i :: 0 <= i < |ms| && ms[i].value == r.value
  {
    if ms == [] then None
    else if ms[|ms| - 1].ident == ident then Some(ms[|ms| - 1].value)
    else
      assert MemberNames(ms) == MemberNames(ms[..|ms| - 1]) + {ms[|ms| - 1].ident};
      Lookup(ms[..|ms| - 1], ident)
  }

  ghost function MemberNames(ms: seq<Member>): set<string> {
    set i | 0 <= i < |ms| :: ms[i].ident
  }

  ghost function MembersOf(j: Json): seq<Member> {
    if j.Object? then j.members else []
  }

  ghost function Property(j: Json, ident: string): (r: Option<Json>)
    ensures r.Some? ==> r.value < j
  {
    Lookup(MembersOf(j), ident)
  }

  /** The definitions that a walk over the JSON reader visits, which chooses cases by the names of the members. */
  ghost function Offered(defs: seq<Def>, j: Json): seq<Item> {
    Active(defs, Outline(MemberNames(MembersOf(j))), None)
  }

  /** The key of an item of a list, whatever leafs of the item it is made of. */
  type KeyOf = (Def, Data) -> string

  /** The tree that a walk along the schema gets from the JSON reader; it fills in defaults if `created`. */
  ghost function TreeOf(key: KeyOf, defs: seq<Def>, j: Json, created: bool): (r: Data)
    ensures r.Obj?
    decreases j, 2, 0
  {
    TreeOfItems(key, Offered(defs, j), j, created)
  }

  ghost function TreeOfItems(key: KeyOf, items: seq<Item>, j: Json, created: bool): (r: Data)
    ensures r.Obj?
    decreases j, 1, |items|
  {
    if items == [] then NOTHING else
      Join(TreeOfOne(key, items[0].def, j, created), TreeOfItems(key, items[1..], j, created))
  }

  ghost function TreeOfOne(key: KeyOf, d: Def, j: Json, created: bool): (r: Data)
    ensures r.Obj?
    decreases j, 0, 0
  {
    var found := Property(j, d.ident);
    match d
    case Leaf(id, default) =>
      if found.Some? && found.value.Text? then Obj(map[id := found.value.value], map[])
      else if found.None? && created && default.Some? then Obj(map[id := default.value], map[])
      else NOTHING
    case Container(id, defs) =>
      if found.Some? && found.value.Object? then Obj(map[], map[id := TreeOf(key, defs, found.value, true)])
      else NOTHING
    case List(id, defs) =>
      if found.Some? && found.value.Array? then Obj(map[], map[id := Rows(RowsOf(key, d, found.value, 0))]) else NOTHING
    case Choice(_, _) => NOTHING
  }

  function ItemCount(j: Json): nat {
    if j.Array? then |j.items| else 0
  }

  ghost function RowsOf(key: KeyOf, d: Def, j: Json, i: nat): seq<Row>
    requires d.List? && i <= ItemCount(j)
    decreases j, 0, ItemCount(j) - i
  {
    if i == ItemCount(j) then [] else
      var data := TreeOf(key, d.defs, j.items[i], true);
      [Row(key(d, data), data)] + RowsOf(key, d, j, i + 1)
  }

  // ---------- data for which reader and writer choose the same cases ----------

  /** Names are used for leafs or for children as the schema says, and the name of a choice is not used. */
  ghost predicate Typed(defs: seq<Def>, t: Data) {
    defs == [] || (TypedOne(defs[0], t) && Typed(defs[1..], t))
  }

  ghost predicate TypedOne(d: Def, t: Data) {
    match d
    case Leaf(id, _) => !HasSub(t, id)
    case Choice(id, cases) => id !in NamesIn(t) && TypedCases(cases, t)
    case _ => d.ident !in Leafs(t)
  }

  ghost predicate TypedCases(cases: seq<Case>, t: Data) {
    cases == [] || (Typed(cases[0].defs, t) && TypedCases(cases[1..], t))
  }

  lemma {:induction false} CaseTyped(cases: seq<Case>, c: nat, t: Data)
    requires TypedCases(cases, t) && c < |cases|
    ensures Typed(cases[c].defs, t)
  {
    if c > 0 {
      CaseTyped(cases[1..], c - 1, t);
    }
  }

  ghost predicate TypedItems(items: seq<Item>, t: Data) {
    forall i :: 0 <= i < |items| ==> TypedOne(items[i].def, t)
  }

  lemma {:induction false} ActiveTyped(defs: seq<Def>, t: Data, o: Tree, home: Option<Home>)
    requires Typed(defs, t)
    ensures TypedItems(Active(defs, o, home), t)
  {
    if defs != [] {
      ActiveOneTyped(defs[0], t, o, home);
      ActiveTyped(defs[1..], t, o, home);
    }
  }

  lemma {:induction false} ActiveOneTyped(d: Def, t: Data, o: Tree, home: Option<Home>)
    requires TypedOne(d, t)
    ensures TypedItems(ActiveOne(d, o, home), t)
  {
    if d.Choice? && Choose(d.cases, o).Some? {
      var c := Choose(d.cases, o).value;
      CaseTyped(d.cases, c, t);
      ActiveTyped(d.cases[c].defs, t, o, Some(Home(d.cases, c)));
    }
  }

  lemma {:induction false} TypedAt(defs: seq<Def>, t: Data, k: nat)
    requires Typed(defs, t) && k < |defs|
    ensures TypedOne(defs[k], t)
  {
    if k > 0 {
      TypedAt(defs[1..], t, k - 1);
    }
  }

  /** What is known after a walk: all that is visited and populated, and nothing but what is visited. */
  ghost predicate Told(items: seq<Item>, level: set<string>, all: set<string>, told: set<string>) {
    Idents(items) * all <= told && told * level <= Idents(items)
  }

  /** Whoever is told the names of what a walk visits visits the same. */
  lemma {:induction false} SameActive(defs: seq<Def>, t: Data, told: set<string>, home: Option<Home>)
    requires Plain(defs) && Typed(defs, t)
    requires Told(Active(defs, Outline(NamesIn(t)), home), LevelNames(defs), NamesIn(t), told)
    ensures Active(defs, Outline(told), home) == Active(defs, Outline(NamesIn(t)), home)
  {
    if defs != [] {
      var o := Outline(NamesIn(t));
      var first, others := ActiveOne(defs[0], o, home), Active(defs[1..], o, home);
      IdentsAppend(first, others);
      ActiveOnePlain(defs[0], o, home);
      ActivePlain(defs[1..], o, home);
      assert Idents(first) <= LevelOne(defs[0]) && Idents(others) <= LevelNames(defs[1..]);
      SameActive(defs[1..], t, told, home);
      if defs[0].Choice? {
        SameChoice(defs[0].cases, t, told, defs[0], home);
      }
    }
  }

  lemma {:induction false} SameChoice(cases: seq<Case>, t: Data, told: set<string>, d: Def, home: Option<Home>)
    requires d.Choice? && d.cases == cases && PlainOne(d) && TypedOne(d, t)
    requires Told(ActiveOne(d, Outline(NamesIn(t)), home), LevelOne(d), NamesIn(t), told)
    ensures ActiveOne(d, Outline(told), home) == ActiveOne(d, Outline(NamesIn(t)), home)
  {
    var o := Outline(NamesIn(t));
    var chosen := Choose(cases, o);
    forall c, k | 0 <= c < |cases| && 0 <= k < |cases[c].defs| && cases[c].defs[k].ident in told
      ensures chosen == Some(c)
    {
      TellsCase(d, t, told, home, c, k);
    }
    if chosen.Some? {
      var c := chosen.value;
      CaseTold(d, t, told, home, c);
      CasePlain(cases, c);
      CaseTyped(cases, c, t);
      SameActive(cases[c].defs, t, told, Some(Home(cases, c)));
    }
    assert Choose(cases, Outline(told)) == chosen;
  }

  lemma TellsCase(d: Def, t: Data, told: set<string>, home: Option<Home>, c: nat, k: nat)
    requires d.Choice? && PlainOne(d) && Told(ActiveOne(d, Outline(NamesIn(t)), home), LevelOne(d), NamesIn(t), told)
    requires c < |d.cases| && k < |d.cases[c].defs| && d.cases[c].defs[k].ident in told
    ensures Choose(d.cases, Outline(NamesIn(t))) == Some(c)
  {
    var o := Outline(NamesIn(t));
    CasePlain(d.cases, c);
    LevelHas(d.cases[c].defs, k);
    assert d.cases[c].defs[k].ident in Idents(ActiveOne(d, o, home));
    var chosen := Choose(d.cases, o).value;
    CasePlain(d.cases, chosen);
    ActivePlain(d.cases[chosen].defs, o, Some(Home(d.cases, chosen)));
    assert d.cases[c].defs[k].ident in LevelNames(d.cases[chosen].defs);
    if c < chosen {
      CasesApart(d.cases, c, chosen);
    } else if chosen < c {
      CasesApart(d.cases, chosen, c);
    }
  }

  lemma CaseTold(d: Def, t: Data, told: set<string>, home: Option<Home>, c: nat)
    requires d.Choice? && PlainOne(d) && TypedOne(d, t) && Choose(d.cases, Outline(NamesIn(t))) == Some(c)
    requires Told(ActiveOne(d, Outline(NamesIn(t)), home), LevelOne(d), NamesIn(t), told)
    ensures Told(Active(d.cases[c].defs, Outline(NamesIn(t)), Some(Home(d.cases, c))), LevelNames(d.cases[c].defs),
                 NamesIn(t), told)
    ensures HasData(d.cases[c], Outline(told))
  {
    CasePlain(d.cases, c);
    var defs, o := d.cases[c].defs, Outline(NamesIn(t));
    var k :| 0 <= k < |defs| && Populated(o, defs[k].ident);
    CaseTyped(d.cases, c, t);
    TypedAt(defs, t, k);
    ActiveHas(defs, o, Some(Home(d.cases, c)), k);
    assert Populated(Outline(told), defs[k].ident);
  }

  // ---------- the round trip ----------

  /** Names are used as the schema says, and every list item is held under its own key. */
  ghost predicate Keyed(key: KeyOf, defs: seq<Def>, t: Data)
    decreases t, 1, 0
  {
    Typed(defs, t) && forall i :: 0 <= i < |Visited(defs, t)| ==> KeyedOne(key, Visited(defs, t)[i].def, t)
  }

  ghost predicate KeyedOne(key: KeyOf, d: Def, t: Data)
    decreases t, 0, 0
  {
    HasSub(t, d.ident) ==>
      match d
      case Container(id, defs) => Keyed(key, defs, t.subs[id])
      case List(id, defs) => KeyedRows(key, d, t.subs[id], 0)
      case _ => true
  }

  ghost predicate KeyedRows(key: KeyOf, d: Def, t: Data, i: nat)
    requires d.List? && i <= RowCount(t)
    decreases t, 0, RowCount(t) - i
  {
    i < RowCount(t) ==>
      && Keyed(key, d.defs, t.rows[i].data) && t.rows[i].key == key(d, Seen(d.defs, t.rows[i].data, true))
      && KeyedRows(key, d, t, i + 1)
  }

  lemma {:induction false} LookupAppend(a: seq<Member>, b: seq<Member>, ident: string)
    ensures Lookup(a + b, ident) == if Lookup(b, ident).Some? then Lookup(b, ident) else Lookup(a, ident)
  {
    if b == [] {
      assert a + b == a;
    } else {
      assert (a + b)[..|a + b| - 1] == a + b[..|b| - 1];
      LookupAppend(a, b[..|b| - 1], ident);
    }
  }

  lemma LookupOne(ms: seq<Member>, ident: string)
    requires |ms| <= 1
    ensures Lookup(ms, ident) == if ms != [] && ms[0].ident == ident then Some(ms[0].value) else None
  {
  }

  lemma {:induction false} LookupMissing(items: seq<Item>, t: Data, created: bool, ident: string)
    requires forall i :: 0 <= i < |items| ==> items[i].def.ident != ident
    ensures Lookup(JsonItems(items, t, created), ident).None?
  {
    if items != [] {
      LookupMissing(items[1..], t, created, ident);
      LookupAppend(JsonOne(items[0].def, t, created), JsonItems(items[1..], t, created), ident);
      LookupOne(JsonOne(items[0].def, t, created), ident);
    }
  }

  lemma {:induction false} LookupWritten(items: seq<Item>, t: Data, created: bool, i: nat)
    requires PlainItems(items) && i < |items|
    ensures var one := JsonOne(items[i].def, t, created);
            Lookup(JsonItems(items, t, created), items[i].def.ident) == if one == [] then None else Some(one[0].value)
  {
    PlainRest(items);
    var first, others := JsonOne(items[0].def, t, created), JsonItems(items[1..], t, created);
    LookupAppend(first, others, items[i].def.ident);
    LookupOne(first, items[i].def.ident);
    if i == 0 {
      LookupMissing(items[1..], t, created, items[0].def.ident);
    } else {
      LookupWritten(items[1..], t, created, i - 1);
    }
  }

  lemma OneNamed(d: Def, t: Data, created: bool)
    requires !d.Choice? && TypedOne(d, t) && d.ident in NamesIn(t)
    ensures JsonOne(d, t, created) != []
  {
  }

  /** The names of the members tell a reader what the walk of the writer has visited. */
  lemma {:induction false} WrittenTold(items: seq<Item>, t: Data, created: bool, level: set<string>)
    requires PlainItems(items) && TypedItems(items, t)
    ensures Told(items, level, NamesIn(t), MemberNames(JsonItems(items, t, created)))
  {
    var told := MemberNames(JsonItems(items, t, created));
    forall k | k in told
      ensures k in Idents(items)
    {
      if k !in Idents(items) {
        LookupMissing(items, t, created, k);
      }
    }
    forall k | k in Idents(items) && k in NamesIn(t)
      ensures k in told
    {
      var i :| 0 <= i < |items| && items[i].def.ident == k;
      ItemTold(items, t, created, i);
    }
  }

  lemma {:induction false} ItemTold(items: seq<Item>, t: Data, created: bool, i: nat)
    requires i < |items| && !items[i].def.Choice? && TypedOne(items[i].def, t) && items[i].def.ident in NamesIn(t)
    ensures items[i].def.ident in MemberNames(JsonItems(items, t, created))
  {
    var first, others := JsonOne(items[0].def, t, created), JsonItems(items[1..], t, created);
    LookupAppend(first, others, items[i].def.ident);
    if i == 0 {
      OneNamed(items[0].def, t, created);
      LookupOne(first, items[0].def.ident);
    } else {
      ItemTold(items[1..], t, created, i - 1);
    }
  }

  /** The reader is offered what the writer visited. */
  lemma OfferedIsVisited(defs: seq<Def>, t: Data, created: bool)
    requires Plain(defs) && Typed(defs, t)
    ensures Offered(defs, Object(JsonOf(defs, t, created))) == Visited(defs, t)
  {
    var o := Outline(NamesIn(t));
    ActivePlain(defs, o, None);
    ActiveTyped(defs, t, o, None);
    WrittenTold(Visited(defs, t), t, created, LevelNames(defs));
    SameActive(defs, t, MemberNames(JsonOf(defs, t, created)), None);
  }

  lemma {:induction false} TreeOfJson(key: KeyOf, defs: seq<Def>, t: Data, created: bool)
    requires Plain(defs) && Keyed(key, defs, t)
    ensures TreeOf(key, defs, Object(JsonOf(defs, t, created)), created) == Seen(defs, t, created)
    decreases t, 2, 0
  {
    OfferedIsVisited(defs, t, created);
    ActivePlain(defs, Outline(NamesIn(t)), None);
    var items := Visited(defs, t);
    TreeOfSome(key, items, 0, t, created);
    assert items[0..] == items;
  }

  lemma {:induction false} TreeOfSome(key: KeyOf, items: seq<Item>, i: nat, t: Data, created: bool)
    requires PlainItems(items) && i <= |items| && forall k :: 0 <= k < |items| ==> KeyedOne(key, items[k].def, t)
    ensures TreeOfItems(key, items[i..], Object(JsonItems(items, t, created)), created)
            == SeenItems(items[i..], t, created)
    decreases t, 1, |items| - i
  {
    if i < |items| {
      assert items[i..][0] == items[i] && items[i..][1..] == items[i + 1..];
      TreeOfSome(key, items, i + 1, t, created);
      LookupWritten(items, t, created, i);
      TreeOfOneJson(key, items[i].def, Object(JsonItems(items, t, created)), t, created);
    }
  }

  lemma {:induction false} TreeOfOneJson(key: KeyOf, d: Def, j: Json, t: Data, created: bool)
    requires PlainOne(d) && KeyedOne(key, d, t)
    requires var one := JsonOne(d, t, created); Property(j, d.ident) == if one == [] then None else Some(one[0].value)
    ensures TreeOfOne(key, d, j, created) == SeenOne(d, t, created)
    decreases t, 0, 0
  {
    if d.Container? && HasSub(t, d.ident) {
      TreeOfJson(key, d.defs, t.subs[d.ident], true);
    } else if d.List? && HasSub(t, d.ident) {
      RowsOfJson(key, d, t.subs[d.ident], Array(JsonRows(d.defs, t.subs[d.ident], 0)), 0);
    }
  }

  lemma {:induction false} RowsOfJson(key: KeyOf, d: Def, t: Data, j: Json, i: nat)
    requires d.List? && Plain(d.defs) && i <= RowCount(t) && KeyedRows(key, d, t, i)
    requires j.Array? && |j.items| == RowCount(t) && j.items[i..] == JsonRows(d.defs, t, i)
    ensures RowsOf(key, d, j, i) == SeenRows(d.defs, t, i)
    decreases t, 0, RowCount(t) - i
  {
    if i < RowCount(t) {
      assert j.items[i] == j.items[i..][0] && j.items[i + 1..] == j.items[i..][1..];
      TreeOfJson(key, d.defs, t.rows[i].data, true);
      RowsOfJson(key, d, t, j, i + 1);
    }
  }

  /** The text of a tree that fits its schema is read back as that tree. */
  lemma RoundTrip(key: KeyOf, defs: seq<Def>, t: Data, created: bool, rest: seq<Token>)
    requires Plain(defs) && Keyed(key, defs, t) && Fits(defs, t, created)
    ensures var j := Object(JsonOf(defs, t, created));
            ReadValue(Print(j) + rest) == Got(j, rest) && TreeOf(key, defs, j, created) == t
  {
    ReadPrinted(Object(JsonOf(defs, t, created)), rest);
    TreeOfJson(key, defs, t, created);
    SeenIsAll(defs, t, created);
  }
}

