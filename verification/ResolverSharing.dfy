/** The invariants of a run over a clean text: which nodes are complete, and which share with which others. */
module ResolverSharing {
  import opened SchemaText
  import opened DefinitionArena
  import opened ResolverRun
  import opened ResolverState

  ghost predicate MatchOne(s: State, r: Ref, d: Def) {
    && r < |s.arena|
    && match d
       case Leaf(ident) => s.arena[r] == LeafCell(ident)
       case Uses(_, _) => false
       case Node(kind, ident, body) =>
         && s.arena[r].NodeCell? && s.arena[r].kind == kind && s.arena[r].ident == ident
         && r in s.source && s.source[r] == body
  }

  /** The first `k` definitions of the expanded list of `x` are in place, and nothing else. */
  ghost predicate Upto(t: Text, s: State, x: Ref, k: nat) {
    && x in s.source && x < |s.arena| && s.arena[x].NodeCell?
    && var f := Flatten(t, s.source[x]);
       var defs := s.arena[x].defs;
       && k == |defs| <= |f|
       && forall i :: 0 <= i < k ==> MatchOne(s, defs[i], f[i])
  }

  ghost predicate Complete(t: Text, s: State, x: Ref) {
    && x in s.source
    && Upto(t, s, x, |Flatten(t, s.source[x])|)
    && UsesKnown(t, s.source[x])
  }

  ghost function Registered(s: State, x: Ref): set<nat> {
    set u | u in s.inProgress && s.inProgress[u] == x
  }

  ghost predicate Duplicate(s: State, x: Ref) {
    exists k :: 0 <= k < |s.recursives| && s.recursives[k].1 == x
  }

  /** The first `k` of some ids. */
  ghost function FirstIds(ids: seq<nat>, k: nat): set<nat> {
    set j | 0 <= j < k && j < |ids| :: ids[j]
  }

  /** The `uses` registered to a node are met by its list, and the first one met is among them. */
  ghost predicate RegisteredOk(t: Text, s: State, x: Ref)
    requires x in s.source
  {
    var met := Met(t, s.source[x]);
    && (forall u :: u in Registered(s, x) ==> u in met)
    && (Registered(s, x) != {} ==> met != [] && met[0] in Registered(s, x))
  }

  ghost predicate Registry(t: Text, s: State) {
    && (forall x :: x in s.source ==> Reached(t, s.source[x]) && RegisteredOk(t, s, x))
    && (forall u :: u in s.inProgress ==> s.inProgress[u] in s.source)
  }

  /**
    A duplicate shares with a master whose list means the same. While the master is open, the duplicate lies below it.
    If both were read from the same list, the duplicate has registered nothing.
  */
  ghost predicate Shares(t: Text, s: State, m: Ref, d: Ref, open: set<Ref>) {
    && m in s.source && d in s.source
    && Alike(t, s.source[m], s.source[d]) && Common(t, s.source[d], s.source[m])
    && Registered(s, m) != {} && (s.source[m] == s.source[d] ==> Registered(s, d) == {})
    && (m in open ==> Below(t, s.source[d], s.source[m]))
  }

  /** Who has been shared with does not become a duplicate any more. */
  ghost predicate MastersFirst(s: State) {
    forall i, j :: 0 <= i <= j < |s.recursives| ==> s.recursives[j].1 != s.recursives[i].0
  }

  ghost predicate Sharing(t: Text, s: State, open: set<Ref>) {
    && MastersFirst(s)
    && forall k :: 0 <= k < |s.recursives| ==> Shares(t, s, s.recursives[k].0, s.recursives[k].1, open)
  }

  ghost predicate Closed(t: Text, s: State, open: set<Ref>) {
    forall x :: x in s.source && x !in open ==> Complete(t, s, x) || Duplicate(s, x)
  }

  ghost predicate SoundIfMain(t: Text, s: State) {
    AlwaysSound(t, t.main) ==> forall x :: x in s.source ==> AlwaysSound(t, s.source[x])
  }

  ghost predicate Inv(t: Text, s: State, open: set<Ref>) {
    Registry(t, s) && Sharing(t, s, open) && Closed(t, s, open) && SoundIfMain(t, s)
  }

  lemma InvIs(t: Text, s: State, open: set<Ref>)
    ensures Inv(t, s, open) <==> Registry(t, s) && Sharing(t, s, open) && Closed(t, s, open) && SoundIfMain(t, s)
  {
  }

  // ---------- what a step keeps ----------

  ghost predicate SourceKept(s: State, s': State) {
    forall y :: y in s.source ==> y in s'.source && s'.source[y] == s.source[y]
  }

  lemma MatchKeeps(s: State, s': State, r: Ref, d: Def)
    requires MatchOne(s, r, d) && SameHeads(s.arena, s'.arena) && SourceKept(s, s')
    ensures MatchOne(s', r, d)
  {
    assert SameHead(s.arena[r], s'.arena[r]);
  }

  lemma UptoKeeps(t: Text, s: State, s': State, x: Ref, k: nat)
    requires Upto(t, s, x, k)
    requires SameHeads(s.arena, s'.arena) && SourceKept(s, s') && s'.arena[x] == s.arena[x]
    ensures Upto(t, s', x, k)
  {
    forall i | 0 <= i < k
      ensures MatchOne(s', s.arena[x].defs[i], Flatten(t, s.source[x])[i])
    {
      MatchKeeps(s, s', s.arena[x].defs[i], Flatten(t, s.source[x])[i]);
    }
  }

  ghost predicate PairsKept(s: State, s': State) {
    |s.recursives| <= |s'.recursives| && forall k :: 0 <= k < |s.recursives| ==> s'.recursives[k] == s.recursives[k]
  }

  lemma DuplicateKeeps(s: State, s': State, x: Ref)
    requires PairsKept(s, s') && Duplicate(s, x)
    ensures Duplicate(s', x)
  {
    var k :| 0 <= k < |s.recursives| && s.recursives[k].1 == x;
    assert s'.recursives[k].1 == x;
  }

  lemma CompleteKeeps(t: Text, s: State, s': State, x: Ref)
    requires Complete(t, s, x)
    requires SameHeads(s.arena, s'.arena) && SourceKept(s, s') && s'.arena[x] == s.arena[x]
    ensures Complete(t, s', x)
  {
    hide Upto;
    UptoKeeps(t, s, s', x, |Flatten(t, s.source[x])|);
  }

  lemma ClosedKeeps(t: Text, s: State, s': State, open: set<Ref>, open': set<Ref>)
    requires Closed(t, s, open)
    requires SameHeads(s.arena, s'.arena) && SourceKept(s, s') && PairsKept(s, s')
    requires forall y :: y in s'.source && y !in open' ==> y in s.source && y !in open
    requires forall y :: y in s.source && y !in open ==> y < |s.arena| && s'.arena[y] == s.arena[y]
    ensures Closed(t, s', open')
  {
    forall x | x in s'.source && x !in open' ensures Complete(t, s', x) || Duplicate(s', x) {
      hide Complete, Duplicate;
      if Complete(t, s, x) {
        CompleteKeeps(t, s, s', x);
      } else {
        DuplicateKeeps(s, s', x);
      }
    }
  }

  lemma RegistryKeeps(t: Text, s: State, s': State)
    requires Registry(t, s)
    requires s'.inProgress == s.inProgress && SourceKept(s, s')
    requires forall y :: y in s'.source && y !in s.source ==> Reached(t, s'.source[y])
    ensures Registry(t, s')
    ensures forall y :: Registered(s', y) == Registered(s, y)
  {
    forall y ensures Registered(s', y) == Registered(s, y) {}
    hide Met, Reached;
    forall y | y in s'.source ensures RegisteredOk(t, s', y) {
      if y !in s.source {
        assert Registered(s, y) == {};
      }
    }
  }

  lemma SharingKeeps(t: Text, s: State, s': State, open: set<Ref>, open': set<Ref>)
    requires Sharing(t, s, open)
    requires SourceKept(s, s')
    requires forall y :: y in s.source && Duplicate(s, y) && Registered(s, y) == {} ==> Registered(s', y) == {}
    requires forall y :: y in s.source && Registered(s, y) != {} ==> Registered(s', y) != {}
    requires forall y :: y in s.source && y !in open ==> y !in open'
    requires s'.recursives == s.recursives
    ensures Sharing(t, s', open')
  {
    hide Registered, Alike, Common, Below;
    forall k | 0 <= k < |s'.recursives|
      ensures Shares(t, s', s'.recursives[k].0, s'.recursives[k].1, open')
    {
      assert Shares(t, s, s.recursives[k].0, s.recursives[k].1, open);
      assert Duplicate(s, s.recursives[k].1);
    }
  }

  /** Adding cells, and opening nodes, disturbs no node that is closed. */
  lemma InvKeeps(t: Text, s: State, s': State, open: set<Ref>, open': set<Ref>)
    requires Inv(t, s, open)
    requires SameHeads(s.arena, s'.arena)
    requires s'.inProgress == s.inProgress && s'.recursives == s.recursives && SourceKept(s, s')
    requires forall y :: y in s.source && y !in open ==> y < |s.arena| && s'.arena[y] == s.arena[y]
    requires open' == open + (s'.source.Keys - s.source.Keys)
    requires forall y :: y in s'.source && y !in s.source ==> Reached(t, s'.source[y])
    requires AlwaysSound(t, t.main) ==>
               forall y :: y in s'.source && y !in s.source ==> AlwaysSound(t, s'.source[y])
    ensures Inv(t, s', open')
    ensures forall y :: Registered(s', y) == Registered(s, y)
  {
    hide Registry, Sharing, Closed, Reached, AlwaysSound, Registered, Duplicate, SameHeads;
    ClosedKeeps(t, s, s', open, open');
    RegistryKeeps(t, s, s');
    SharingKeeps(t, s, s', open, open');
  }

  // ---------- the first sighting of a `uses` ----------

  /**
    Of the ids that the list of `x` meets the first `k` are behind it, and some of them, the first at least, its own.
  */
  ghost predicate HasMet(t: Text, s: State, x: Ref, k: nat) {
    && x in s.source && k <= |Met(t, s.source[x])|
    && Registered(s, x) <= FirstIds(Met(t, s.source[x]), k)
    && if k == 0 then !Duplicate(s, x) else Met(t, s.source[x])[0] in Registered(s, x)
  }

  ghost predicate MeetsNext(t: Text, s: State, x: Ref, k: nat, u: nat) {
    HasMet(t, s, x, k) && k < |Met(t, s.source[x])| && Met(t, s.source[x])[k] == u
  }

  lemma RegisterAdds(s: State, s': State, u: nat, x: Ref, y: Ref)
    requires u !in s.inProgress
    requires s' == s.(inProgress := s.inProgress[u := x])
    ensures Registered(s', y) == Registered(s, y) + (if y == x then {u} else {})
  {
  }

  /** The node of the `uses` becomes its master. */
  lemma RegisterKeeps(t: Text, s: State, s': State, open: set<Ref>, x: Ref, k: nat, u: nat)
    requires Inv(t, s, open) && x in open && x in s.source && MeetsNext(t, s, x, k, u) && u !in s.inProgress
    requires forall y :: y in s.source ==> y < |s.arena|
    requires s' == s.(inProgress := s.inProgress[u := x])
    ensures Inv(t, s', open) && HasMet(t, s', x, k + 1)
  {
    hide *;
    InvIs(t, s, open);
    RegisterRegistry(t, s, s', x, k, u);
    RegisterSharing(t, s, s', open, x, k, u);
    RegisterClosed(t, s, s', open, x, u);
    InvIs(t, s', open);
  }

  lemma RegisterRegistry(t: Text, s: State, s': State, x: Ref, k: nat, u: nat)
    requires Registry(t, s) && MeetsNext(t, s, x, k, u) && u !in s.inProgress
    requires s' == s.(inProgress := s.inProgress[u := x])
    ensures Registry(t, s') && HasMet(t, s', x, k + 1)
  {
    RegisterMet(t, s, s', x, k, u);
    hide Met, Reached, FirstIds, Duplicate, HasMet, Registered, RegisteredOk;
    forall y | y in s'.source ensures RegisteredOk(t, s', y) {
      RegisterOk(t, s, s', x, u, y);
    }
  }

  lemma RegisterOk(t: Text, s: State, s': State, x: Ref, u: nat, y: Ref)
    requires y in s.source && x in s.source && RegisteredOk(t, s, y) && u !in s.inProgress && u in Met(t, s.source[x])
    requires s' == s.(inProgress := s.inProgress[u := x])
    requires y == x ==> Met(t, s.source[x])[0] in Registered(s', x)
    ensures RegisteredOk(t, s', y)
  {
    RegisterAdds(s, s', u, x, y);
    hide Registered, Met;
  }

  lemma RegisterMet(t: Text, s: State, s': State, x: Ref, k: nat, u: nat)
    requires MeetsNext(t, s, x, k, u) && u !in s.inProgress
    requires s' == s.(inProgress := s.inProgress[u := x])
    ensures HasMet(t, s', x, k + 1) && u in Met(t, s.source[x]) && Met(t, s.source[x])[0] in Registered(s', x)
  {
    hide Met;
    RegisterAdds(s, s', u, x, x);
    var met := Met(t, s.source[x]);
    assert FirstIds(met, k + 1) == FirstIds(met, k) + {u};
  }

  lemma RegisterSharing(t: Text, s: State, s': State, open: set<Ref>, x: Ref, k: nat, u: nat)
    requires Sharing(t, s, open) && MeetsNext(t, s, x, k, u) && u !in s.inProgress
    requires s' == s.(inProgress := s.inProgress[u := x])
    ensures Sharing(t, s', open)
  {
    forall y ensures Registered(s', y) == Registered(s, y) + (if y == x then {u} else {}) {
      RegisterAdds(s, s', u, x, y);
    }
    hide Registered, Sharing, Met, Duplicate, FirstIds;
    SharingKeeps(t, s, s', open, open);
  }

  lemma RegisterClosed(t: Text, s: State, s': State, open: set<Ref>, x: Ref, u: nat)
    requires Closed(t, s, open) && SoundIfMain(t, s)
    requires forall y :: y in s.source ==> y < |s.arena|
    requires s' == s.(inProgress := s.inProgress[u := x])
    ensures Closed(t, s', open) && SoundIfMain(t, s')
  {
    hide Closed;
    ClosedKeeps(t, s, s', open, open);
  }

  // ---------- the second sighting ----------

  /** All open nodes other than `x` lie above it. */
  ghost predicate Lowest(t: Text, s: State, x: Ref, open: set<Ref>) {
    x in s.source && forall y :: y in open && y != x ==> y in s.source && Below(t, s.source[x], s.source[y])
  }

  /** What the list of `x` and that of the master of the `uses` that it meets next have to do with each other. */
  ghost predicate Meeting(t: Text, s: State, x: Ref, z: Ref) {
    && x in s.source && z in s.source && z != x && Registered(s, z) != {}
    && Alike(t, s.source[z], s.source[x]) && Common(t, s.source[x], s.source[z])
    && (s.source[z] == s.source[x] ==> Registered(s, x) == {})
    && (s.source[z] != s.source[x] ==> Once(t, s.source[x]))
  }

  lemma ShareMatches(t: Text, s: State, x: Ref, k: nat, u: nat)
    requires Clean(t) && Registry(t, s) && MeetsNext(t, s, x, k, u) && u in s.inProgress
    ensures Meeting(t, s, x, s.inProgress[u])
  {
    var l, z := s.source[x], s.inProgress[u];
    MasterMeets(t, s, x, k, u);
    var m := s.source[z];
    hide Met, FirstIds, Below, Reached, Flatten, Once;
    assert Common(t, l, m) && Common(t, m, l);
    assert Reached(t, l) && Reached(t, m);
    if l == m {
      assert RegisteredOk(t, s, z);
    }
  }

  lemma MasterMeets(t: Text, s: State, x: Ref, k: nat, u: nat)
    requires Clean(t) && Registry(t, s) && MeetsNext(t, s, x, k, u) && u in s.inProgress
    ensures var z := s.inProgress[u];
            && z in s.source && z != x && u in Registered(s, z) && u in Met(t, s.source[z]) && u in Met(t, s.source[x])
            && (k == 0 ==> Registered(s, x) == {})
  {
    var met, z := Met(t, s.source[x]), s.inProgress[u];
    assert u in Registered(s, z) && RegisteredOk(t, s, z);
    hide Met, Reached;
    assert Reached(t, s.source[x]) && Distinct(met);
    assert u !in FirstIds(met, k) && FirstIds(met, 0) == {};
  }

  /** Nobody shares with a node that still meets what another node has registered. */
  lemma MeetingIsNoMaster(t: Text, s: State, open: set<Ref>, x: Ref, z: Ref, k: nat)
    requires Sharing(t, s, open) && x in open && Meeting(t, s, x, z) && k < |s.recursives|
    ensures s.recursives[k].0 != x
  {
    hide Alike, Below, Met;
    assert Shares(t, s, s.recursives[k].0, s.recursives[k].1, open);
  }

  /** The pair of master and duplicate is recorded. */
  lemma ShareKeeps(t: Text, s: State, s': State, open: set<Ref>, x: Ref, k: nat, u: nat)
    requires Clean(t) && Inv(t, s, open) && x in open && Lowest(t, s, x, open)
    requires MeetsNext(t, s, x, k, u) && u in s.inProgress
    requires forall y :: y in s.source ==> y < |s.arena|
    requires s' == s.(recursives := s.recursives + [(s.inProgress[u], x)])
    ensures Inv(t, s', open) && Duplicate(s', x)
  {
    hide *;
    InvIs(t, s, open);
    ShareMatches(t, s, x, k, u);
    ShareSharing(t, s, s', open, x, s.inProgress[u]);
    ShareOthers(t, s, s', open);
    InvIs(t, s', open);
  }

  lemma ShareOthers(t: Text, s: State, s': State, open: set<Ref>)
    requires Registry(t, s) && Closed(t, s, open) && SoundIfMain(t, s)
    requires forall y :: y in s.source ==> y < |s.arena|
    requires |s.recursives| < |s'.recursives| && s' == s.(recursives := s'.recursives) && PairsKept(s, s')
    ensures Registry(t, s') && Closed(t, s', open) && SoundIfMain(t, s')
  {
    hide Registry, Closed;
    RegistryKeeps(t, s, s');
    ClosedKeeps(t, s, s', open, open);
  }

  lemma ShareSharing(t: Text, s: State, s': State, open: set<Ref>, x: Ref, z: Ref)
    requires Sharing(t, s, open) && x in open && Lowest(t, s, x, open) && Meeting(t, s, x, z)
    requires s' == s.(recursives := s.recursives + [(z, x)])
    ensures Sharing(t, s', open) && Duplicate(s', x) && PairsKept(s, s')
  {
    var n := |s.recursives|;
    assert s'.recursives[n] == (z, x);
    forall y ensures Registered(s', y) == Registered(s, y) {}
    hide Registered, Alike, Common, Below, Once;
    forall k | 0 <= k <= n
      ensures Shares(t, s', s'.recursives[k].0, s'.recursives[k].1, open)
      ensures s'.recursives[k].0 != x
    {
      if k < n {
        assert Shares(t, s, s.recursives[k].0, s.recursives[k].1, open);
        MeetingIsNoMaster(t, s, open, x, z, k);
      }
    }
  }

  // ---------- when a list has been dealt with ----------

  /** A node that is a duplicate, or whose whole list has been added, can be closed. */
  lemma CloseNode(t: Text, s: State, x: Ref, open: set<Ref>)
    requires Inv(t, s, open) && x in s.source && (Complete(t, s, x) || Duplicate(s, x))
    ensures Inv(t, s, open - {x})
  {
    hide Complete, Duplicate, Registry, Registered;
    SharingKeeps(t, s, s, open, open - {x});
  }

  /**
    In the end a master is none of the duplicates recorded with it or later; its list means the same as that of its
    duplicate. If lists that meet the same `uses` are equal, it is no duplicate at all.
  */
  lemma MasterIsComplete(t: Text, s: State, j: nat)
    requires Inv(t, s, {}) && j < |s.recursives|
    ensures var (m, d) := s.recursives[j];
            && m in s.source && d in s.source && m != d
            && Alike(t, s.source[m], s.source[d])
            && (forall i :: j <= i < |s.recursives| ==> s.recursives[i].1 != m)
            && (OneList(t) ==> s.source[m] == s.source[d] && !Duplicate(s, m) && Complete(t, s, m))
  {
    var m := s.recursives[j].0;
    hide Alike, Below, Complete, Registered, Met, Reached;
    assert Shares(t, s, m, s.recursives[j].1, {});
    if OneList(t) {
      forall i | 0 <= i < |s.recursives|
        ensures s.source[s.recursives[i].0] == s.source[s.recursives[i].1] && s.recursives[i].1 != m
      {
        assert Shares(t, s, s.recursives[i].0, s.recursives[i].1, {});
      }
    }
  }
}
