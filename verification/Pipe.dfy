/**
  The channel pipe of nodeutil/pipe.go: one side writes a tree into the pipe as messages, the other reads them
  as a tree. The channel has no buffer.
*/
module Pipe {
  import opened Wrappers
  import opened DataSchema
  import opened SchemaNames
  import opened DataTree

  datatype Message =
    | PipeSelect(ident: string)
    | PipeListItem(ident: string, key: string)
    | PipeLeaf(ident: string, value: Value)
    | PipeEnd(err: Option<string>)

  /** What the reading node is asked for. */
  datatype Ask = Child(ident: string) | Next | Field(ident: string)

  datatype Reply = Hit(message: Message) | Miss(err: Option<string>)

  predicate Matches(a: Ask, m: Message) {
    match a
    case Child(id) => m.PipeSelect? && m.ident == id
    case Next => m.PipeListItem?
    case Field(id) => m.PipeLeaf? && m.ident == id
  }

  /** The error a message carries; only the last one has any. */
  function ErrorOf(m: Message): Option<string> {
    if m.PipeEnd? then m.err else None
  }

  function ReplyTo(a: Ask, m: Message): Reply {
    if Matches(a, m) then Hit(m) else Miss(ErrorOf(m))
  }

  // ---------- the writer ----------

  ghost function Pushed(defs: seq<Def>, t: Data, created: bool): seq<Message>
    decreases t, 2, 0
  {
    PushedItems(Visited(defs, t), t, created)
  }

  ghost function PushedItems(items: seq<Item>, t: Data, created: bool): seq<Message>
    decreases t, 1, |items|
  {
    if items == [] then [] else PushedOne(items[0].def, t, created) + PushedItems(items[1..], t, created)
  }

  ghost function PushedOne(d: Def, t: Data, created: bool): seq<Message>
    decreases t, 0, 0
  {
    match d
    case Leaf(id, _) =>
      var v := ValueOf(d, t, created);
      if v.Some? then [PipeLeaf(id, v.value)] else []
    case Container(id, defs) => if HasSub(t, id) then [PipeSelect(id)] + Pushed(defs, t.subs[id], true) else []
    case List(id, defs) => if HasSub(t, id) then [PipeSelect(id)] + PushedRows(id, defs, t.subs[id], 0) else []
    case Choice(_, _) => []
  }

  ghost function PushedRows(ident: string, defs: seq<Def>, t: Data, i: nat): seq<Message>
    requires i <= RowCount(t)
    decreases t, 0, RowCount(t) - i
  {
    if i == RowCount(t) then [] else
      [PipeListItem(ident, t.rows[i].key)] + Pushed(defs, t.rows[i].data, true) + PushedRows(ident, defs, t, i + 1)
  }

  lemma PushedFirst(defs: seq<Def>, t: Data, created: bool)
    ensures defs == [] ==> Pushed(defs, t, created) == []
    ensures defs != [] && !defs[0].Choice? ==>
              Pushed(defs, t, created) == PushedOne(defs[0], t, created) + Pushed(defs[1..], t, created)
  {
    VisitedFirst(defs, t, created);
    hide Visited, PushedOne;
  }

  // ---------- the reader ----------

  const NO_CHOOSE := "OnChoose not implemented"

  /** The iterator looks one definition ahead, and panics at a choice, as the reading node cannot choose. */
  predicate SeesChoice(defs: seq<Def>) {
    (defs != [] && defs[0].Choice?) || (|defs| > 1 && defs[1].Choice?)
  }

  datatype Read<T> = Got(value: T, rest: seq<Message>) | Failed(err: string)

  ghost predicate Ended(s: seq<Message>) {
    s != [] && s[|s| - 1].PipeEnd? && forall i :: 0 <= i < |s| - 1 ==> !s[i].PipeEnd?
  }

  /** What a walk along the schema reads from the messages to come. */
  ghost function Pulled(defs: seq<Def>, s: seq<Message>): (r: Read<Data>)
    requires Ended(s)
    ensures r.Got? ==> Ended(r.rest) && |r.rest| <= |s| && r.value.Obj?
    decreases |s|, defs, 1
  {
    if defs == [] then Got(NOTHING, s)
    else if SeesChoice(defs) then Failed(NO_CHOOSE)
    else
      match PulledOne(defs[0], s)
      case Failed(e) => Failed(e)
      case Got(one, s1) =>
        match Pulled(defs[1..], s1)
        case Failed(e) => Failed(e)
        case Got(others, s2) => Got(Join(one, others), s2)
  }

  ghost function PulledOne(d: Def, s: seq<Message>): (r: Read<Data>)
    requires Ended(s)
    ensures r.Got? ==> Ended(r.rest) && |r.rest| <= |s| && r.value.Obj?
    decreases |s|, d, 0
  {
    match d
    case Leaf(id, _) =>
      if Matches(Field(id), s[0]) then Got(Obj(map[id := s[0].value], map[]), s[1..])
      else Unmatched(s)
    case Container(id, defs) =>
      if Matches(Child(id), s[0]) then
        match Pulled(defs, s[1..])
        case Failed(e) => Failed(e)
        case Got(sub, s1) => Got(Obj(map[], map[id := sub]), s1)
      else Unmatched(s)
    case List(id, defs) =>
      if Matches(Child(id), s[0]) then
        match PulledRows(defs, s[1..])
        case Failed(e) => Failed(e)
        case Got(rows, s1) => Got(Obj(map[], map[id := Rows(rows)]), s1)
      else Unmatched(s)
    case Choice(_, _) => Failed(NO_CHOOSE)
  }

  ghost function Unmatched(s: seq<Message>): (r: Read<Data>)
    requires Ended(s)
  {
    if ErrorOf(s[0]).Some? then Failed(ErrorOf(s[0]).value) else Got(NOTHING, s)
  }

  ghost function PulledRows(defs: seq<Def>, s: seq<Message>): (r: Read<seq<Row>>)
    requires Ended(s)
    ensures r.Got? ==> Ended(r.rest) && |r.rest| <= |s|
    decreases |s|, defs, 2
  {
    if !Matches(Next, s[0]) then
      if ErrorOf(s[0]).Some? then Failed(ErrorOf(s[0]).value) else Got([], s)
    else
      match Pulled(defs, s[1..])
      case Failed(e) => Failed(e)
      case Got(row, s1) =>
        match PulledRows(defs, s1)
        case Failed(e) => Failed(e)
        case Got(rows, s2) => Got([Row(s[0].key, row)] + rows, s2)
  }

  // ---------- which messages can come next ----------

  function AskFor(d: Def): Ask {
    if d.Leaf? then Field(d.ident) else Child(d.ident)
  }

  /** Everything but a leaf whose default is filled in may be missing. */
  predicate MayLack(d: Def, created: bool) {
    !(d.Leaf? && created && d.default.Some?)
  }

  /** What the next message can answer, if `defs` and then `follow` lie ahead. */
  ghost function Coming(defs: seq<Def>, created: bool, follow: set<Ask>): set<Ask> {
    if defs == [] then follow else
      {AskFor(defs[0])} + if MayLack(defs[0], created) then Coming(defs[1..], created, follow) else {}
  }

  /** No message that can come after a definition is taken for it, or for something inside of it. */
  ghost predicate Clear(defs: seq<Def>, created: bool, follow: set<Ask>) {
    defs == [] || (ClearOne(defs[0], created, Coming(defs[1..], created, follow)) && Clear(defs[1..], created, follow))
  }

  ghost predicate ClearOne(d: Def, created: bool, coming: set<Ask>) {
    && (MayLack(d, created) ==> AskFor(d) !in coming)
    && match d
       case Leaf(_, _) => true
       case Container(_, defs) => Clear(defs, true, coming)
       case List(_, defs) => Next !in coming && Clear(defs, true, coming + {Next})
       case Choice(_, _) => false
  }

  ghost predicate Comes(m: Message, follow: set<Ask>) {
    match m
    case PipeSelect(id) => Child(id) in follow
    case PipeLeaf(id, _) => Field(id) in follow
    case PipeListItem(_, _) => Next in follow
    case PipeEnd(e) => e.None?
  }

  lemma ComesIs(m: Message, follow: set<Ask>, a: Ask)
    requires Comes(m, follow) && a !in follow
    ensures !Matches(a, m) && ErrorOf(m).None?
  {
  }

  lemma PushedOneStarts(d: Def, t: Data, created: bool)
    requires !d.Choice?
    ensures if PushedOne(d, t, created) == [] then MayLack(d, created)
            else Matches(AskFor(d), PushedOne(d, t, created)[0])
  {
    hide Pushed, PushedRows;
  }

  lemma {:induction false} PushedComes(defs: seq<Def>, t: Data, created: bool, follow: set<Ask>, rest: seq<Message>)
    requires Clear(defs, created, follow) && Ended(rest) && Comes(rest[0], follow)
    ensures Comes((Pushed(defs, t, created) + rest)[0], Coming(defs, created, follow))
  {
    if defs == [] {
      PushedFirst(defs, t, created);
      assert Pushed(defs, t, created) + rest == rest;
    } else {
      hide *;
      ClearParts(defs, created, follow);
      PushedEnded(defs[1..], t, created, rest);
      PushedComes(defs[1..], t, created, follow, rest);
      PushedOneStarts(defs[0], t, created);
      PushedBoth(defs, t, created, rest);
      var others := Pushed(defs[1..], t, created) + rest;
      assert |others| >= |rest|;
      EndedIs(rest);
      StartsComes(defs[0], PushedOne(defs[0], t, created), others, created, Coming(defs[1..], created, follow));
      ComingFirst(defs, created, follow);
    }
  }

  lemma EndedIs(s: seq<Message>)
    requires Ended(s)
    ensures s != []
  {
  }

  lemma StartsComes(d: Def, one: seq<Message>, others: seq<Message>, created: bool, coming: set<Ask>)
    requires if one == [] then MayLack(d, created) else Matches(AskFor(d), one[0])
    requires others != [] && Comes(others[0], coming)
    ensures one + others != []
    ensures Comes((one + others)[0], {AskFor(d)} + if MayLack(d, created) then coming else {})
  {
    hide MayLack;
  }

  lemma ComingFirst(defs: seq<Def>, created: bool, follow: set<Ask>)
    requires defs != []
    ensures Coming(defs, created, follow)
         == {AskFor(defs[0])} + if MayLack(defs[0], created) then Coming(defs[1..], created, follow) else {}
  {
  }

  // ---------- the reader rebuilds what the writer wrote ----------

  lemma {:induction false} PushedGoesOn(defs: seq<Def>, t: Data, created: bool)
    ensures forall i :: 0 <= i < |Pushed(defs, t, created)| ==> !Pushed(defs, t, created)[i].PipeEnd?
    decreases t, 2, 0
  {
    PushedItemsGoOn(Visited(defs, t), t, created);
  }

  lemma {:induction false} PushedItemsGoOn(items: seq<Item>, t: Data, created: bool)
    ensures forall i :: 0 <= i < |PushedItems(items, t, created)| ==> !PushedItems(items, t, created)[i].PipeEnd?
    decreases t, 1, |items|
  {
    if items != [] {
      PushedOneGoesOn(items[0].def, t, created);
      PushedItemsGoOn(items[1..], t, created);
    }
  }

  lemma {:induction false} PushedOneGoesOn(d: Def, t: Data, created: bool)
    ensures forall i :: 0 <= i < |PushedOne(d, t, created)| ==> !PushedOne(d, t, created)[i].PipeEnd?
    decreases t, 0, 0
  {
    if d.Container? && HasSub(t, d.ident) {
      PushedGoesOn(d.defs, t.subs[d.ident], true);
    } else if d.List? && HasSub(t, d.ident) {
      PushedRowsGoOn(d.ident, d.defs, t.subs[d.ident], 0);
    }
  }

  lemma {:induction false} PushedRowsGoOn(ident: string, defs: seq<Def>, t: Data, i: nat)
    requires i <= RowCount(t)
    ensures forall j :: 0 <= j < |PushedRows(ident, defs, t, i)| ==> !PushedRows(ident, defs, t, i)[j].PipeEnd?
    decreases t, 0, RowCount(t) - i
  {
    if i < RowCount(t) {
      PushedGoesOn(defs, t.rows[i].data, true);
      PushedRowsGoOn(ident, defs, t, i + 1);
    }
  }

  lemma EndedAfter(a: seq<Message>, b: seq<Message>)
    requires Ended(b) && forall i :: 0 <= i < |a| ==> !a[i].PipeEnd?
    ensures Ended(a + b)
  {
  }

  lemma PulledBoth(defs: seq<Def>, s: seq<Message>, one: Data, s1: seq<Message>, others: Data, s2: seq<Message>)
    requires defs != [] && Ended(s) && Ended(s1) && one.Obj? && others.Obj?
    requires PulledOne(defs[0], s) == Got(one, s1) && Pulled(defs[1..], s1) == Got(others, s2)
    ensures Pulled(defs, s) == Got(Join(one, others), s2)
  {
  }

  lemma PushedBoth(defs: seq<Def>, t: Data, created: bool, rest: seq<Message>)
    requires defs != [] && !defs[0].Choice?
    ensures Pushed(defs, t, created) + rest == PushedOne(defs[0], t, created) + (Pushed(defs[1..], t, created) + rest)
    ensures Seen(defs, t, created) == Join(SeenOne(defs[0], t, created), Seen(defs[1..], t, created))
  {
    PushedFirst(defs, t, created);
    VisitedFirst(defs, t, created);
  }

  lemma PushedEnded(defs: seq<Def>, t: Data, created: bool, rest: seq<Message>)
    requires Ended(rest)
    ensures Ended(Pushed(defs, t, created) + rest)
  {
    PushedGoesOn(defs, t, created);
  }

  /** Whatever comes after the messages of some data, the reader takes exactly those and rebuilds the data. */
  lemma {:induction false} PullPushed(defs: seq<Def>, t: Data, created: bool, follow: set<Ask>, rest: seq<Message>)
    requires Clear(defs, created, follow) && Ended(rest) && Comes(rest[0], follow)
    ensures Ended(Pushed(defs, t, created) + rest)
    ensures Pulled(defs, Pushed(defs, t, created) + rest) == Got(Seen(defs, t, created), rest)
    decreases t, |defs|, 1
  {
    PushedEnded(defs, t, created, rest);
    if defs == [] {
      PushedFirst(defs, t, created);
      VisitedFirst(defs, t, created);
      assert Pushed(defs, t, created) + rest == rest;
    } else {
      ClearParts(defs, created, follow);
      hide *;
      PushedEnded(defs[1..], t, created, rest);
      PushedComes(defs[1..], t, created, follow, rest);
      PullPushedOne(defs[0], t, created, Coming(defs[1..], created, follow), Pushed(defs[1..], t, created) + rest);
      PullPushed(defs[1..], t, created, follow, rest);
      PushedBoth(defs, t, created, rest);
      PulledBoth(defs, Pushed(defs, t, created) + rest, SeenOne(defs[0], t, created),
                 Pushed(defs[1..], t, created) + rest, Seen(defs[1..], t, created), rest);
    }
  }

  lemma ClearParts(defs: seq<Def>, created: bool, follow: set<Ask>)
    requires Clear(defs, created, follow) && defs != []
    ensures ClearOne(defs[0], created, Coming(defs[1..], created, follow)) && Clear(defs[1..], created, follow)
            && !defs[0].Choice?
  {
  }

  lemma {:induction false} PullPushedOne(d: Def, t: Data, created: bool, coming: set<Ask>, rest: seq<Message>)
    requires ClearOne(d, created, coming) && Ended(rest) && Comes(rest[0], coming)
    ensures Ended(PushedOne(d, t, created) + rest)
    ensures PulledOne(d, PushedOne(d, t, created) + rest) == Got(SeenOne(d, t, created), rest)
    decreases t, 0
  {
    PushedOneGoesOn(d, t, created);
    EndedAfter(PushedOne(d, t, created), rest);
    if PushedOne(d, t, created) == [] {
      assert PushedOne(d, t, created) + rest == rest;
      NothingAhead(d, t, created, coming, rest);
    } else {
      OneAhead(d, t, created, rest);
      ClearInside(d, created, coming, rest[0]);
      hide Clear, ClearOne, Comes, Ended, SeenOne, PushedOne, PulledOne, Seen, Pushed, Pulled;
      if d.Container? {
        PullPushed(d.defs, t.subs[d.ident], true, coming, rest);
      } else if d.List? {
        PullPushedRows(d.ident, d.defs, t.subs[d.ident], 0, coming, rest);
      }
      TakenAhead(d, t, created, rest);
    }
  }

  lemma TakenAhead(d: Def, t: Data, created: bool, rest: seq<Message>)
    requires PushedOne(d, t, created) != [] && Ended(PushedOne(d, t, created) + rest) && Ended(rest)
    requires d.Container? ==> HasSub(t, d.ident) && Ended(Pushed(d.defs, t.subs[d.ident], true) + rest)
    requires d.Container? ==>
               Pulled(d.defs, Pushed(d.defs, t.subs[d.ident], true) + rest)
                 == Got(Seen(d.defs, t.subs[d.ident], true), rest)
    requires d.List? ==> HasSub(t, d.ident) && Ended(PushedRows(d.ident, d.defs, t.subs[d.ident], 0) + rest)
    requires d.List? ==>
               PulledRows(d.defs, PushedRows(d.ident, d.defs, t.subs[d.ident], 0) + rest)
                 == Got(SeenRows(d.defs, t.subs[d.ident], 0), rest)
    ensures PulledOne(d, PushedOne(d, t, created) + rest) == Got(SeenOne(d, t, created), rest)
  {
    OneAhead(d, t, created, rest);
    hide PushedOne, Pushed, PushedRows, Pulled, PulledRows, Seen, SeenRows, Ended;
  }

  lemma NothingAhead(d: Def, t: Data, created: bool, coming: set<Ask>, rest: seq<Message>)
    requires ClearOne(d, created, coming) && PushedOne(d, t, created) == [] && Ended(rest) && Comes(rest[0], coming)
    ensures PulledOne(d, rest) == Got(SeenOne(d, t, created), rest)
  {
    PushedOneStarts(d, t, created);
    ComesIs(rest[0], coming, AskFor(d));
    hide Pushed, PushedRows, Pulled, PulledRows, Seen, SeenRows, Clear, Ended, Comes;
  }

  lemma ClearInside(d: Def, created: bool, coming: set<Ask>, m: Message)
    requires ClearOne(d, created, coming) && Comes(m, coming)
    ensures d.Container? ==> Clear(d.defs, true, coming)
    ensures d.List? ==> Clear(d.defs, true, coming + {Next}) && Next !in coming
  {
  }

  lemma OneAhead(d: Def, t: Data, created: bool, rest: seq<Message>)
    requires PushedOne(d, t, created) != []
    ensures var s := (PushedOne(d, t, created) + rest)[1..];
            && (d.Container? ==> s == Pushed(d.defs, t.subs[d.ident], true) + rest)
            && (d.List? ==> s == PushedRows(d.ident, d.defs, t.subs[d.ident], 0) + rest)
            && (d.Leaf? ==> s == rest)
    ensures var m := (PushedOne(d, t, created) + rest)[0];
            if d.Leaf? then ValueOf(d, t, created).Some? && m == PipeLeaf(d.ident, ValueOf(d, t, created).value)
            else HasSub(t, d.ident) && m == PipeSelect(d.ident)
  {
    hide Pushed, PushedRows;
  }

  lemma {:induction false} PullPushedRows(ident: string, defs: seq<Def>, t: Data, i: nat, coming: set<Ask>,
                                          rest: seq<Message>)
    requires Clear(defs, true, coming + {Next}) && Next !in coming && i <= RowCount(t) && Ended(rest)
             && Comes(rest[0], coming)
    ensures Ended(PushedRows(ident, defs, t, i) + rest)
    ensures PulledRows(defs, PushedRows(ident, defs, t, i) + rest) == Got(SeenRows(defs, t, i), rest)
    decreases t, RowCount(t) - i
  {
    if i == RowCount(t) {
      NoRowAhead(ident, defs, t, coming, rest);
    } else {
      hide *;
      RowFacts(ident, defs, t, i, coming, rest);
      var others := PushedRows(ident, defs, t, i + 1) + rest;
      var row := t.rows[i].data;
      PullPushedRows(ident, defs, t, i + 1, coming, rest);
      PullPushed(defs, row, true, coming + {Next}, others);
      RowsBoth(defs, PushedRows(ident, defs, t, i) + rest, Seen(defs, row, true), others,
               SeenRows(defs, t, i + 1), rest);
    }
  }

  lemma RowFacts(ident: string, defs: seq<Def>, t: Data, i: nat, coming: set<Ask>, rest: seq<Message>)
    requires i < RowCount(t) && Ended(rest) && Comes(rest[0], coming)
    ensures t.Rows? && i < |t.rows| && Ended(PushedRows(ident, defs, t, i) + rest)
    ensures SeenRows(defs, t, i) == [Row(t.rows[i].key, Seen(defs, t.rows[i].data, true))] + SeenRows(defs, t, i + 1)
    ensures var s, others := PushedRows(ident, defs, t, i) + rest, PushedRows(ident, defs, t, i + 1) + rest;
            && s[0] == PipeListItem(ident, t.rows[i].key) && s[1..] == Pushed(defs, t.rows[i].data, true) + others
            && Ended(others) && Comes(others[0], coming + {Next})
  {
    PushedRowsGoOn(ident, defs, t, i);
    EndedAfter(PushedRows(ident, defs, t, i), rest);
    PushedRowsGoOn(ident, defs, t, i + 1);
    EndedAfter(PushedRows(ident, defs, t, i + 1), rest);
    RowAhead(ident, defs, t, i, coming, rest);
    SeenRow(defs, t, i);
    hide *;
  }

  lemma NoRowAhead(ident: string, defs: seq<Def>, t: Data, coming: set<Ask>, rest: seq<Message>)
    requires Ended(rest) && Comes(rest[0], coming) && Next !in coming
    ensures PushedRows(ident, defs, t, RowCount(t)) + rest == rest
    ensures PulledRows(defs, rest) == Got(SeenRows(defs, t, RowCount(t)), rest)
  {
    ComesIs(rest[0], coming, Next);
  }

  lemma SeenRow(defs: seq<Def>, t: Data, i: nat)
    requires i < RowCount(t)
    ensures SeenRows(defs, t, i) == [Row(t.rows[i].key, Seen(defs, t.rows[i].data, true))] + SeenRows(defs, t, i + 1)
  {
  }

  lemma RowsBoth(defs: seq<Def>, s: seq<Message>, row: Data, s1: seq<Message>, rows: seq<Row>, s2: seq<Message>)
    requires Ended(s) && s[0].PipeListItem? && Ended(s[1..]) && Ended(s1)
    requires Pulled(defs, s[1..]) == Got(row, s1) && PulledRows(defs, s1) == Got(rows, s2)
    ensures PulledRows(defs, s) == Got([Row(s[0].key, row)] + rows, s2)
  {
  }

  lemma RowAhead(ident: string, defs: seq<Def>, t: Data, i: nat, coming: set<Ask>, rest: seq<Message>)
    requires i < RowCount(t) && rest != [] && Comes(rest[0], coming)
    ensures var s := PushedRows(ident, defs, t, i) + rest;
            && s[0] == PipeListItem(ident, t.rows[i].key)
            && s[1..] == Pushed(defs, t.rows[i].data, true) + (PushedRows(ident, defs, t, i + 1) + rest)
    ensures Comes((PushedRows(ident, defs, t, i + 1) + rest)[0], coming + {Next})
  {
    FirstOff(PipeListItem(ident, t.rows[i].key), Pushed(defs, t.rows[i].data, true), PushedRows(ident, defs, t, i + 1),
             rest);
    hide Pushed;
    if i + 1 == RowCount(t) {
      assert PushedRows(ident, defs, t, i + 1) + rest == rest;
    }
  }

  lemma FirstOff(m: Message, a: seq<Message>, b: seq<Message>, c: seq<Message>)
    ensures ([m] + a + b + c)[0] == m && ([m] + a + b + c)[1..] == a + (b + c)
  {
  }

  /** A tree that fits its schema comes out of the pipe as it went in. */
  lemma RoundTrip(defs: seq<Def>, t: Data, created: bool)
    requires Plain(defs) && Clear(defs, created, {}) && Fits(defs, t, created)
    ensures var s := Pushed(defs, t, created) + [PipeEnd(None)];
            Ended(s) && Pulled(defs, s) == Got(t, [PipeEnd(None)])
  {
    PullPushed(defs, t, created, {}, [PipeEnd(None)]);
    SeenIsAll(defs, t, created);
  }
}
