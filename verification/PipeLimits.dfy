/**
  Which trees the pipe can carry: there is no message for the end of a container or list, so what comes next must not
  be taken for something that is missing. If it can be, some data do not come through.
*/
module PipeLimits {
  import opened Wrappers
  import opened DataSchema
  import opened SchemaNames
  import opened DataTree
  import opened Pipe

  /** Data, and the message that must follow them for the reader to go wrong; None if any will do. */
  datatype Trap = Trap(data: Data, next: Option<Ask>)

  ghost predicate HasChoice(defs: seq<Def>) {
    exists i :: 0 <= i < |defs| && defs[i].Choice?
  }

  /** Data that have just this definition. */
  ghost function Only(d: Def): (r: Data)
    ensures r.Obj?
  {
    match d
    case Leaf(id, _) => Obj(map[id := ""], map[])
    case List(id, _) => Obj(map[], map[id := Rows([])])
    case _ => Obj(map[], map[d.ident := NOTHING])
  }

  /** Data of `defs` whose messages begin with one that answers `a`, or none if that comes later. */
  ghost function Meet(defs: seq<Def>, a: Option<Ask>): (r: Trap)
    ensures r.data.Obj?
  {
    if a.None? then Trap(NOTHING, None)
    else if defs == [] then Trap(NOTHING, a)
    else if AskFor(defs[0]) == a.value then Trap(Only(defs[0]), None)
    else Meet(defs[1..], a)
  }

  /** Data of a schema that is not clear, for which the reader goes wrong. */
  ghost function Bad(defs: seq<Def>, created: bool, follow: set<Ask>): (r: Trap)
    requires !Clear(defs, created, follow)
    ensures r.data.Obj?
    decreases defs, 1
  {
    if HasChoice(defs) then Trap(NOTHING, None)
    else if !Clear(defs[1..], created, follow) then Bad(defs[1..], created, follow)
    else
      var d, coming := defs[0], Coming(defs[1..], created, follow);
      assert !d.Choice? && !ClearOne(d, created, coming);
      if MayLack(d, created) && AskFor(d) in coming then Meet(defs[1..], Some(AskFor(d)))
      else
        var inside := BadOne(d, coming);
        var after := Meet(defs[1..], inside.next);
        Trap(Join(Obj(map[], map[d.ident := inside.data]), after.data), after.next)
  }

  /** Something inside of the definition can be mistaken. */
  ghost predicate Mistaken(d: Def, coming: set<Ask>) {
    && (d.Container? || d.List?) && (d.Container? ==> !Clear(d.defs, true, coming))
    && (d.List? && Next !in coming ==> !Clear(d.defs, true, coming + {Next}))
  }

  /** The same for what is inside of a container or list. */
  ghost function BadOne(d: Def, coming: set<Ask>): Trap
    requires Mistaken(d, coming)
    decreases d, 0
  {
    if d.Container? then Bad(d.defs, true, coming)
    else if Next in coming then Trap(Rows([]), Some(Next))
    else
      var row := Bad(d.defs, true, coming + {Next});
      if row.next == Some(Next) then Trap(Rows([Row("", row.data), Row("", NOTHING)]), None)
      else Trap(Rows([Row("", row.data)]), row.next)
  }

  // ---------- only the names of a level count ----------

  ghost predicate Same(t: Data, u: Data, ident: string) {
    && (ident in Leafs(t) <==> ident in Leafs(u)) && (ident in Leafs(t) ==> Leafs(t)[ident] == Leafs(u)[ident])
    && (HasSub(t, ident) <==> HasSub(u, ident)) && (HasSub(t, ident) ==> t.subs[ident] == u.subs[ident])
  }

  ghost predicate Agree(t: Data, u: Data, names: set<string>) {
    forall k :: k in names ==> Same(t, u, k)
  }

  ghost predicate Lacks(t: Data, ident: string) {
    ident !in Leafs(t) && !HasSub(t, ident)
  }

  lemma {:induction false} PulledNames(defs: seq<Def>, s: seq<Message>, ident: string)
    requires Ended(s) && Pulled(defs, s).Got? && ident !in LevelNames(defs)
    ensures Lacks(Pulled(defs, s).value, ident)
  {
    if defs != [] {
      PulledOneNames(defs[0], s, ident);
      PulledNames(defs[1..], PulledOne(defs[0], s).rest, ident);
    }
  }

  lemma PulledOneNames(d: Def, s: seq<Message>, ident: string)
    requires Ended(s) && PulledOne(d, s).Got? && ident != d.ident
    ensures Lacks(PulledOne(d, s).value, ident)
  {
  }

  lemma SeenOneLacks(d: Def, t: Data, created: bool, ident: string)
    requires ident != d.ident
    ensures Lacks(SeenOne(d, t, created), ident)
  {
  }

  lemma {:induction false} SeenLacks(defs: seq<Def>, t: Data, created: bool, ident: string)
    requires !HasChoice(defs) && ident !in LevelNames(defs)
    ensures Lacks(Seen(defs, t, created), ident)
  {
    VisitedFirst(defs, t, created);
    if defs != [] {
      assert !defs[0].Choice?;
      NoChoiceRest(defs);
      SeenOneLacks(defs[0], t, created, ident);
      SeenLacks(defs[1..], t, created, ident);
    } else {
      assert Seen(defs, t, created) == NOTHING;
    }
  }

  lemma NoChoiceRest(defs: seq<Def>)
    requires !HasChoice(defs) && defs != []
    ensures !HasChoice(defs[1..]) && !defs[0].Choice? && !SeesChoice(defs)
  {
    forall i | 0 <= i < |defs[1..]| ensures !defs[1..][i].Choice? {
      assert defs[1..][i] == defs[i + 1];
    }
  }

  lemma {:induction false} ChoicePanics(defs: seq<Def>, s: seq<Message>)
    requires HasChoice(defs) && Ended(s)
    ensures Pulled(defs, s).Failed?
  {
    if !SeesChoice(defs) {
      var i :| 0 <= i < |defs| && defs[i].Choice?;
      assert defs[1..][i - 1] == defs[i];
      if PulledOne(defs[0], s).Got? {
        ChoicePanics(defs[1..], PulledOne(defs[0], s).rest);
      }
    }
  }

  // ---------- the reader goes wrong ----------

  ghost predicate Right(r: Read<Data>, v: Data) {
    r.Got? && r.value == v
  }

  ghost predicate OnlyOf(t: Data, ident: string) {
    t.Obj? && forall k :: k != ident ==> Lacks(t, k)
  }

  lemma JoinsSame(ident: string, one: Data, others: Data, one': Data, others': Data)
    requires OnlyOf(one, ident) && OnlyOf(one', ident) && others.Obj? && others'.Obj? && Lacks(others, ident)
             && Lacks(others', ident)
    requires Join(one, others) == Join(one', others')
    ensures one == one' && others == others'
  {
    var all, all' := Join(one, others), Join(one', others');
    forall k
      ensures k in one.leafs <==> k in one'.leafs
      ensures k in one.leafs ==> one.leafs[k] == one'.leafs[k]
      ensures k in others.leafs <==> k in others'.leafs
      ensures k in others.leafs ==> others.leafs[k] == others'.leafs[k]
    {
      assert k in all.leafs <==> k in all'.leafs;
      assert k != ident ==> Lacks(one, k) && Lacks(one', k);
    }
    forall k
      ensures k in one.subs <==> k in one'.subs
      ensures k in one.subs ==> one.subs[k] == one'.subs[k]
      ensures k in others.subs <==> k in others'.subs
      ensures k in others.subs ==> others.subs[k] == others'.subs[k]
    {
      assert k in all.subs <==> k in all'.subs;
      assert k != ident ==> Lacks(one, k) && Lacks(one', k);
    }
    assert one.leafs == one'.leafs && one.subs == one'.subs;
    assert others.leafs == others'.leafs && others.subs == others'.subs;
  }

  /** What is read is right only if it is right for the first definition and for the others. */
  lemma RightParts(defs: seq<Def>, s: seq<Message>, t: Data, created: bool)
    requires Plain(defs) && defs != [] && !HasChoice(defs) && Ended(s) && Right(Pulled(defs, s), Seen(defs, t, created))
    ensures Right(PulledOne(defs[0], s), SeenOne(defs[0], t, created))
    ensures Right(Pulled(defs[1..], PulledOne(defs[0], s).rest), Seen(defs[1..], t, created))
  {
    NoChoiceRest(defs);
    VisitedFirst(defs, t, created);
    var d, one := defs[0], PulledOne(defs[0], s);
    assert d.ident !in LevelNames(defs[1..]);
    PulledNames(defs[1..], one.rest, d.ident);
    SeenLacks(defs[1..], t, created, d.ident);
    forall k | k != d.ident ensures Lacks(one.value, k) && Lacks(SeenOne(d, t, created), k) {
      PulledOneNames(d, s, k);
      SeenOneLacks(d, t, created, k);
    }
    hide PulledOne, SeenOne, Seen, Plain;
    JoinsSame(d.ident, one.value, Pulled(defs[1..], one.rest).value, SeenOne(d, t, created),
              Seen(defs[1..], t, created));
  }

  // ---------- the names of the data chosen, and what must follow them ----------

  lemma {:induction false} MeetFacts(defs: seq<Def>, created: bool, follow: set<Ask>, a: Option<Ask>, ident: string)
    requires !HasChoice(defs) && (a.Some? ==> a.value in Coming(defs, created, follow))
    ensures ident !in LevelNames(defs) ==> Lacks(Meet(defs, a).data, ident)
    ensures Meet(defs, a).next.Some? ==> Meet(defs, a).next.value in follow
  {
    if a.Some? && defs != [] {
      NoChoiceRest(defs);
      LevelParts(defs);
      if AskFor(defs[0]) != a.value {
        MeetFacts(defs[1..], created, follow, a, ident);
      }
    }
  }

  lemma {:induction false} BadFacts(defs: seq<Def>, created: bool, follow: set<Ask>, ident: string)
    requires !Clear(defs, created, follow)
    ensures ident !in LevelNames(defs) ==> Lacks(Bad(defs, created, follow).data, ident)
    ensures Bad(defs, created, follow).next.Some? ==> Bad(defs, created, follow).next.value in follow
    decreases defs, 1
  {
    if !HasChoice(defs) {
      NoChoiceRest(defs);
      LevelParts(defs);
      if !Clear(defs[1..], created, follow) {
        BadFacts(defs[1..], created, follow, ident);
      } else {
        var d, coming := defs[0], Coming(defs[1..], created, follow);
        if MayLack(d, created) && AskFor(d) in coming {
          MeetFacts(defs[1..], created, follow, Some(AskFor(d)), ident);
        } else {
          BadOneFacts(d, coming);
          MeetFacts(defs[1..], created, follow, BadOne(d, coming).next, ident);
        }
      }
    }
  }

  lemma {:induction false} BadOneFacts(d: Def, coming: set<Ask>)
    requires Mistaken(d, coming)
    ensures BadOne(d, coming).next.Some? ==> BadOne(d, coming).next.value in coming
    decreases d, 0
  {
    if d.Container? {
      BadFacts(d.defs, true, coming, "");
    } else if Next !in coming {
      BadFacts(d.defs, true, coming + {Next}, "");
    }
  }

  // ---------- the messages of the data chosen ----------

  lemma AgreeRest(defs: seq<Def>, t: Data, u: Data)
    requires defs != [] && Agree(t, u, LevelNames(defs))
    ensures Agree(t, u, LevelNames(defs[1..])) && (!defs[0].Choice? ==> Same(t, u, defs[0].ident))
  {
    LevelParts(defs);
  }

  lemma LackingPushes(d: Def, t: Data, created: bool)
    requires Lacks(t, d.ident) && !d.Choice?
    ensures if MayLack(d, created) then PushedOne(d, t, created) == [] && SeenOne(d, t, created) == NOTHING
            else d.default.Some? && PushedOne(d, t, created) == [PipeLeaf(d.ident, d.default.value)]
  {
  }

  lemma PushedSplit(defs: seq<Def>, t: Data, created: bool, rest: seq<Message>)
    requires defs != [] && !HasChoice(defs) && Ended(rest)
    ensures var others := Pushed(defs[1..], t, created) + rest;
            && Ended(others) && Ended(Pushed(defs, t, created) + rest)
            && Pushed(defs, t, created) + rest == PushedOne(defs[0], t, created) + others
  {
    NoChoiceRest(defs);
    PushedEnded(defs[1..], t, created, rest);
    PushedEnded(defs, t, created, rest);
    PushedFirst(defs, t, created);
  }

  lemma {:induction false} MeetComes(defs: seq<Def>, t: Data, created: bool, follow: set<Ask>, a: Option<Ask>,
                                     rest: seq<Message>)
    requires Plain(defs) && !HasChoice(defs) && (a.Some? ==> a.value in Coming(defs, created, follow))
    requires t.Obj? && Agree(t, Meet(defs, a).data, LevelNames(defs))
    requires Ended(rest) && (Meet(defs, a).next.Some? ==> Matches(Meet(defs, a).next.value, rest[0]))
    ensures Ended(Pushed(defs, t, created) + rest)
    ensures a.Some? ==> Matches(a.value, (Pushed(defs, t, created) + rest)[0])
  {
    PushedEnded(defs, t, created, rest);
    if a.Some? {
      if defs == [] {
        PushedFirst(defs, t, created);
        assert Pushed(defs, t, created) + rest == rest;
      } else {
        PushedSplit(defs, t, created, rest);
        NoChoiceRest(defs);
        LevelParts(defs);
        AgreeRest(defs, t, Meet(defs, a).data);
        if AskFor(defs[0]) == a.value {
          OnlyPushes(defs[0], t, created);
        } else {
          MeetFacts(defs[1..], created, follow, a, defs[0].ident);
          MeetComes(defs[1..], t, created, follow, a, rest);
          LackingPushes(defs[0], t, created);
          assert [] + (Pushed(defs[1..], t, created) + rest) == Pushed(defs[1..], t, created) + rest;
        }
      }
    }
  }

  lemma OnlyPushes(d: Def, t: Data, created: bool)
    requires !d.Choice? && t.Obj? && Same(t, Only(d), d.ident)
    ensures PushedOne(d, t, created) != [] && Matches(AskFor(d), PushedOne(d, t, created)[0])
  {
    hide Pushed, PushedRows;
  }

  // ---------- the data chosen do not come through ----------

  ghost predicate Followed(next: Option<Ask>, rest: seq<Message>) {
    Ended(rest) && (next.Some? ==> Matches(next.value, rest[0]))
  }

  lemma TakenIsSomething(d: Def, s: seq<Message>)
    requires Ended(s) && !d.Choice? && PulledOne(d, s).Got?
    ensures if Matches(AskFor(d), s[0]) then !Lacks(PulledOne(d, s).value, d.ident)
            else PulledOne(d, s) == Got(NOTHING, s)
  {
    hide Pulled, PulledRows;
  }

  lemma NothingLacks(ident: string)
    ensures Lacks(NOTHING, ident)
  {
  }

  lemma LeafTaken(d: Def, value: Value, rest: seq<Message>)
    requires d.Leaf? && Ended(rest)
    ensures var s := [PipeLeaf(d.ident, value)] + rest;
            Ended(s) && PulledOne(d, s) == Got(Obj(map[d.ident := value], map[]), rest)
  {
    var s := [PipeLeaf(d.ident, value)] + rest;
    assert s[1..] == rest;
  }

  /**
    Nothing of the first definition is there, and what follows goes wrong already, or the first definition takes it.
  */
  lemma LackingFails(defs: seq<Def>, t: Data, created: bool, rest: seq<Message>)
    requires Plain(defs) && defs != [] && !HasChoice(defs) && Ended(rest) && Lacks(t, defs[0].ident)
    requires var s := Pushed(defs[1..], t, created) + rest;
             Ended(s) && (!Right(Pulled(defs[1..], s), Seen(defs[1..], t, created))
                          || (MayLack(defs[0], created) && Matches(AskFor(defs[0]), s[0])))
    ensures var s := Pushed(defs, t, created) + rest; Ended(s) && !Right(Pulled(defs, s), Seen(defs, t, created))
  {
    hide Pushed, Pulled, Seen, Plain, SeenOne, PulledOne, PushedOne, Lacks, SeesChoice;
    var s, others := Pushed(defs, t, created) + rest, Pushed(defs[1..], t, created) + rest;
    var d := defs[0];
    NoChoiceRest(defs);
    PushedSplit(defs, t, created, rest);
    LackingPushes(d, t, created);
    if MayLack(d, created) {
      assert [] + others == others;
    } else {
      LeafTaken(d, d.default.value, others);
    }
    NothingLacks(d.ident);
    if PulledOne(d, s).Got? {
      TakenIsSomething(d, s);
    }
    if Right(Pulled(defs, s), Seen(defs, t, created)) {
      RightParts(defs, s, t, created);
    }
  }

  lemma {:induction false} BadFails(defs: seq<Def>, created: bool, follow: set<Ask>, t: Data, rest: seq<Message>)
    requires Plain(defs) && !Clear(defs, created, follow) && t.Obj?
    requires Agree(t, Bad(defs, created, follow).data, LevelNames(defs))
             && Followed(Bad(defs, created, follow).next, rest)
    ensures var s := Pushed(defs, t, created) + rest; Ended(s) && !Right(Pulled(defs, s), Seen(defs, t, created))
    decreases defs, 1
  {
    PushedEnded(defs, t, created, rest);
    if HasChoice(defs) {
      ChoicePanics(defs, Pushed(defs, t, created) + rest);
    } else {
      var d, coming := defs[0], Coming(defs[1..], created, follow);
      NoChoiceRest(defs);
      LevelParts(defs);
      AgreeRest(defs, t, Bad(defs, created, follow).data);
      if !Clear(defs[1..], created, follow) {
        BadFacts(defs[1..], created, follow, d.ident);
        BadFails(defs[1..], created, follow, t, rest);
        LackingFails(defs, t, created, rest);
      } else if MayLack(d, created) && AskFor(d) in coming {
        MeetFacts(defs[1..], created, follow, Some(AskFor(d)), d.ident);
        MeetComes(defs[1..], t, created, follow, Some(AskFor(d)), rest);
        LackingFails(defs, t, created, rest);
      } else {
        BadOneFacts(d, coming);
        MeetFacts(defs[1..], created, follow, BadOne(d, coming).next, d.ident);
        PresentFails(defs, created, follow, coming, t, rest);
      }
    }
  }

  /** The first definition is there, with something inside that goes wrong when the others follow. */
  lemma {:induction false} PresentFails(defs: seq<Def>, created: bool, follow: set<Ask>, coming: set<Ask>, t: Data,
                                        rest: seq<Message>)
    requires Plain(defs) && defs != [] && !HasChoice(defs) && t.Obj? && HasSub(t, defs[0].ident)
    requires coming == Coming(defs[1..], created, follow) && Mistaken(defs[0], coming)
    requires var inside := BadOne(defs[0], coming);
             && t.subs[defs[0].ident] == inside.data && (inside.next.Some? ==> inside.next.value in coming)
             && Agree(t, Meet(defs[1..], inside.next).data, LevelNames(defs[1..]))
             && Followed(Meet(defs[1..], inside.next).next, rest)
    ensures var s := Pushed(defs, t, created) + rest; Ended(s) && !Right(Pulled(defs, s), Seen(defs, t, created))
    decreases defs, 0
  {
    var s := Pushed(defs, t, created) + rest;
    NoChoiceRest(defs);
    PushedSplit(defs, t, created, rest);
    MeetComes(defs[1..], t, created, follow, BadOne(defs[0], coming).next, rest);
    BadOneFails(defs[0], coming, t, created, Pushed(defs[1..], t, created) + rest);
    hide *;
    if Right(Pulled(defs, s), Seen(defs, t, created)) {
      RightParts(defs, s, t, created);
    }
  }

  lemma {:induction false} BadOneFails(d: Def, coming: set<Ask>, t: Data, created: bool, rest: seq<Message>)
    requires PlainOne(d) && Mistaken(d, coming) && HasSub(t, d.ident) && t.subs[d.ident] == BadOne(d, coming).data
    requires Followed(BadOne(d, coming).next, rest)
    ensures var s := PushedOne(d, t, created) + rest; Ended(s) && !Right(PulledOne(d, s), SeenOne(d, t, created))
    decreases d, 1
  {
    PushedOneGoesOn(d, t, created);
    EndedAfter(PushedOne(d, t, created), rest);
    if d.Container? {
      InsideContainer(d, coming);
      hide *;
      BadFails(d.defs, true, coming, t.subs[d.ident], rest);
    } else {
      hide *;
      BadRowsFail(d, coming, t.subs[d.ident], rest);
    }
    SubWrong(d, t, created, rest);
  }

  lemma InsideContainer(d: Def, coming: set<Ask>)
    requires d.Container? && PlainOne(d) && Mistaken(d, coming)
    ensures Plain(d.defs) && !Clear(d.defs, true, coming) && BadOne(d, coming) == Bad(d.defs, true, coming)
    ensures Agree(BadOne(d, coming).data, BadOne(d, coming).data, LevelNames(d.defs)) && BadOne(d, coming).data.Obj?
  {
  }

  lemma SubWrong(d: Def, t: Data, created: bool, rest: seq<Message>)
    requires (d.Container? || d.List?) && HasSub(t, d.ident) && Ended(PushedOne(d, t, created) + rest)
    requires d.Container? ==> var s := Pushed(d.defs, t.subs[d.ident], true) + rest;
                              Ended(s) && !Right(Pulled(d.defs, s), Seen(d.defs, t.subs[d.ident], true))
    requires d.List? ==> var s := PushedRows(d.ident, d.defs, t.subs[d.ident], 0) + rest;
                         Ended(s) && (PulledRows(d.defs, s).Got? ==>
                                        PulledRows(d.defs, s).value != SeenRows(d.defs, t.subs[d.ident], 0))
    ensures !Right(PulledOne(d, PushedOne(d, t, created) + rest), SeenOne(d, t, created))
  {
    OneAhead(d, t, created, rest);
    var s, one := PushedOne(d, t, created) + rest, SeenOne(d, t, created);
    hide Pushed, PushedRows, Pulled, PulledRows, Seen, SeenRows, Ended;
    if PulledOne(d, s).Got? {
      var read := PulledOne(d, s).value;
      assert d.ident in read.subs && d.ident in one.subs && read.subs[d.ident] != one.subs[d.ident];
    }
  }

  lemma {:induction false} BadRowsFail(d: Def, coming: set<Ask>, t: Data, rest: seq<Message>)
    requires d.List? && PlainOne(d) && Mistaken(d, coming) && t == BadOne(d, coming).data
             && Followed(BadOne(d, coming).next, rest)
    ensures var s := PushedRows(d.ident, d.defs, t, 0) + rest;
            Ended(s) && (PulledRows(d.defs, s).Got? ==> PulledRows(d.defs, s).value != SeenRows(d.defs, t, 0))
    decreases d, 0
  {
    PushedRowsGoOn(d.ident, d.defs, t, 0);
    EndedAfter(PushedRows(d.ident, d.defs, t, 0), rest);
    if Next in coming {
      assert PushedRows(d.ident, d.defs, t, 0) + rest == rest;
      ItemTaken(d.defs, rest);
    } else {
      var row := Bad(d.defs, true, coming + {Next});
      BadRows(d, coming, rest);
      hide *;
      BadFails(d.defs, true, coming + {Next}, row.data, PushedRows(d.ident, d.defs, t, 1) + rest);
      RowWrong(d, t, rest);
    }
  }

  lemma ItemTaken(defs: seq<Def>, s: seq<Message>)
    requires Ended(s) && s[0].PipeListItem?
    ensures PulledRows(defs, s).Got? ==> PulledRows(defs, s).value != []
  {
    hide Pulled;
  }

  /** The rows chosen: the first one is where it goes wrong, and what follows it is what that needs. */
  lemma BadRows(d: Def, coming: set<Ask>, rest: seq<Message>)
    requires d.List? && PlainOne(d) && Mistaken(d, coming) && Next !in coming && Followed(BadOne(d, coming).next, rest)
    ensures var t, row := BadOne(d, coming).data, Bad(d.defs, true, coming + {Next});
            && Plain(d.defs) && row.data.Obj? && Agree(row.data, row.data, LevelNames(d.defs))
            && t.Rows? && |t.rows| > 0 && RowCount(t) == |t.rows| && t.rows[0].data == row.data
            && Followed(row.next, PushedRows(d.ident, d.defs, t, 1) + rest)
  {
    var t, row := BadOne(d, coming).data, Bad(d.defs, true, coming + {Next});
    var others := PushedRows(d.ident, d.defs, t, 1) + rest;
    PushedRowsGoOn(d.ident, d.defs, t, 1);
    EndedAfter(PushedRows(d.ident, d.defs, t, 1), rest);
    if row.next != Some(Next) {
      assert others == rest;
    }
  }

  lemma RowWrong(d: Def, t: Data, rest: seq<Message>)
    requires d.List? && t.Rows? && RowCount(t) == |t.rows| && |t.rows| > 0
             && Ended(PushedRows(d.ident, d.defs, t, 0) + rest)
    requires var s := Pushed(d.defs, t.rows[0].data, true) + (PushedRows(d.ident, d.defs, t, 1) + rest);
             Ended(s) && !Right(Pulled(d.defs, s), Seen(d.defs, t.rows[0].data, true))
    ensures var s := PushedRows(d.ident, d.defs, t, 0) + rest;
            PulledRows(d.defs, s).Got? ==> PulledRows(d.defs, s).value != SeenRows(d.defs, t, 0)
  {
    var s := PushedRows(d.ident, d.defs, t, 0) + rest;
    FirstOff(PipeListItem(d.ident, t.rows[0].key), Pushed(d.defs, t.rows[0].data, true),
             PushedRows(d.ident, d.defs, t, 1), rest);
    assert s[0] == PipeListItem(d.ident, t.rows[0].key);
    SeenRow(d.defs, t, 0);
    hide Pushed, Pulled, Seen, SeenRows, PushedRows;
    if PulledRows(d.defs, s).Got? {
      assert PulledRows(d.defs, s).value[0].data == Pulled(d.defs, s[1..]).value;
    }
  }

  // ---------- exactly these schemas ----------

  ghost predicate ComesBack(defs: seq<Def>, t: Data, created: bool) {
    var s := Pushed(defs, t, created) + [PipeEnd(None)];
    Ended(s) && Pulled(defs, s) == Got(Seen(defs, t, created), [PipeEnd(None)])
  }

  /**
    All data that a walk sees come through if and only if nothing that can come next is taken for something missing.
  */
  lemma ComesThroughExactly(defs: seq<Def>, created: bool)
    requires Plain(defs)
    ensures (forall t :: ComesBack(defs, t, created)) <==> Clear(defs, created, {})
  {
    if Clear(defs, created, {}) {
      forall t ensures ComesBack(defs, t, created) {
        PullPushed(defs, t, created, {}, [PipeEnd(None)]);
      }
    } else {
      var bad := Bad(defs, created, {});
      BadFacts(defs, created, {}, "");
      BadFails(defs, created, {}, bad.data, [PipeEnd(None)]);
      assert !ComesBack(defs, bad.data, created);
    }
  }
}
