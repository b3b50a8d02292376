/** The edit walk of node/edit.go over a source tree and a target that it changes in place. */
module Editor {
  import opened Wrappers
  import opened DataSchema
  import opened SchemaNames
  import opened MetaIterator
  import opened EditSpec
  import opened EditStep
  import opened EditRun
  import opened EditWalk
  import opened EditPaths
  import opened Store

  datatype Error = NoError | ConflictError(ident: string) | NotFoundError(ident: string)

  /** What an edit reports when it fails. */
  ghost predicate Reports(st: Strategy, err: Error) {
    (err.ConflictError? ==> st.Insert?) && (err.NotFoundError? ==> st.Update?)
  }

  /**
    An edit below the root leaves the log balanced, and has told the nodes at these paths, each once and without
    bubbling, that they are entered; one that fails leaves some begun edits open.
  */
  ghost predicate Kept(err: Error, before: LogMark, after: LogMark, told: set<Path>) {
    && before.open <= after.open && after.roots == before.roots
    && (err.NoError? ==> after.open == before.open && after.entered == before.entered + multiset(told))
  }

  /** An edit at the root tells its node, bubbling, that an edit begins with it as root, and on success that it ends. */
  ghost predicate KeptAtRoot(err: Error, before: LogMark, after: LogMark, told: set<Path>, path: Path) {
    && before.open <= after.open
    && after.roots == before.roots + [Call(true, path, true, true)]
                      + (if err.NoError? then [Call(false, path, true, true)] else [])
    && (err.NoError? ==> after.open == before.open && after.entered == before.entered + multiset(told))
  }

  ghost predicate KeptAs(root: bool, err: Error, before: LogMark, after: LogMark, told: set<Path>, path: Path) {
    if root then KeptAtRoot(err, before, after, told, path) else Kept(err, before, after, {path} + told)
  }

  lemma KeptSame(err: Error, a: LogMark)
    ensures Kept(err, a, a, {})
  {
  }

  lemma KeptFailed(err: Error, a: LogMark, b: LogMark, told: set<Path>, others: set<Path>)
    requires Kept(err, a, b, told) && !err.NoError?
    ensures Kept(err, a, b, others)
  {
  }

  lemma KeptBoth(err: Error, a: LogMark, b: LogMark, c: LogMark, told: set<Path>, more: set<Path>)
    requires Kept(NoError, a, b, told) && Kept(err, b, c, more) && told !! more
    ensures Kept(err, a, c, told + more)
  {
    assert multiset(told + more) == multiset(told) + multiset(more);
  }

  lemma KeptOpen(err: Error, a: LogMark, b: LogMark, told: set<Path>)
    requires Kept(err, a, b, told)
    ensures err.NoError? ==> b.open == a.open
  {
  }

  lemma KeptAround(err: Error, a: LogMark, b: LogMark, c: LogMark, d: LogMark, path: Path, root: bool, told: set<Path>)
    requires b == Marked(a, Call(true, path, root, root)) && Kept(err, b, c, told) && path !in told
    requires d == if err.NoError? then Marked(c, Call(false, path, root, root)) else c
    ensures KeptAs(root, err, a, d, told, path)
  {
    assert multiset({path} + told) == multiset{path} + multiset(told);
    if err.NoError? {
      assert c.open == a.open + [Call(true, path, root, root)];
      assert d.open == a.open;
    }
  }

  /** What entering a container, list or list item reports and leaves behind. */
  ghost predicate Entered(st: Strategy, d: Def, inList: bool, from: Tree, to0: Tree, t: Tree, created: bool, ud: bool,
                          err: Error)
    requires d.Container? || d.List?
  {
    && (err.NoError? <==> Allowed(st, d, inList, from, to0))
    && (err.NoError? ==> t == Result(st, d, inList, from, to0, created, ud))
    && Reports(st, err)
  }

  /** What has happened when a walk that began at `before` has dealt with the first `n` definitions, or has failed. */
  ghost predicate Outcome(st: Strategy, defs: seq<Def>, from: Tree, to0: Tree, t: Tree, created: bool, ud: bool, n: nat,
                          err: Error, before: LogMark, after: LogMark, at: Path)
    requires n <= |Active(defs, from, None)|
  {
    && Kept(err, before, after, BelowItems(Active(defs, from, None)[..n], from, at)) && Reports(st, err)
    && if err.NoError? then Done(st, defs, from, to0, t, created, ud, n) else !Admits(st, defs, from, to0)
  }

  lemma OutcomeNext(st: Strategy, defs: seq<Def>, from: Tree, to0: Tree, t: Tree, created: bool, ud: bool, n: nat,
                    before: LogMark, mark: LogMark, after: LogMark, at: Path)
    requires Plain(defs) && n < |Active(defs, from, None)|
    requires Kept(NoError, before, mark, BelowItems(Active(defs, from, None)[..n], from, at))
    requires Kept(NoError, mark, after, BelowItem(Active(defs, from, None)[n], from, at))
    requires Done(st, defs, from, to0, t, created, ud, n + 1)
    ensures Outcome(st, defs, from, to0, t, created, ud, n + 1, NoError, before, after, at)
  {
    var items := Active(defs, from, None);
    ActivePlain(defs, from, None);
    hide Done, Kept, Active, PlainItems, BelowItem;
    ItemsApart(items, n, from, at);
    KeptBoth(NoError, before, mark, after, BelowItems(items[..n], from, at), BelowItem(items[n], from, at));
  }

  lemma OutcomeRefused(st: Strategy, defs: seq<Def>, from: Tree, to0: Tree, t: Tree, created: bool, ud: bool, n: nat,
                       err: Error, before: LogMark, mark: LogMark, after: LogMark, told: set<Path>, at: Path)
    requires n <= |Active(defs, from, None)|
    requires Kept(NoError, before, mark, BelowItems(Active(defs, from, None)[..n], from, at))
    requires Kept(err, mark, after, told) && !err.NoError? && Reports(st, err) && !Admits(st, defs, from, to0)
    ensures Outcome(st, defs, from, to0, t, created, ud, |Active(defs, from, None)|, err, before, after, at)
  {
  }

  lemma OutcomeStarts(st: Strategy, defs: seq<Def>, from: Tree, to0: Tree, t: Tree, created: bool, ud: bool,
                      mark: LogMark, at: Path)
    requires Done(st, defs, from, to0, t, created, ud, 0)
    ensures Outcome(st, defs, from, to0, t, created, ud, 0, NoError, mark, mark, at)
  {
    assert BelowItems(Active(defs, from, None)[..0], from, at) == {};
  }

  lemma OutcomeOf(st: Strategy, defs: seq<Def>, from: Tree, to0: Tree, t: Tree, created: bool, ud: bool, n: nat,
                  err: Error, before: LogMark, after: LogMark, at: Path)
    requires n <= |Active(defs, from, None)|
    requires Outcome(st, defs, from, to0, t, created, ud, n, err, before, after, at)
    ensures Kept(err, before, after, BelowItems(Active(defs, from, None)[..n], from, at)) && Reports(st, err)
    ensures if err.NoError? then Done(st, defs, from, to0, t, created, ud, n) else !Admits(st, defs, from, to0)
  {
  }

  /** When an edit succeeds, by paths. */
  lemma WhenAllowed(st: Strategy, d: Def, inList: bool, from: Tree, to: Tree)
    requires d.Container? || d.List?
    ensures Allowed(st, d, inList, from, to) <==>
              match st
              case Upsert => true
              case Insert => forall n: string :: Visited(d, inList, from, [n], false) ==> n !in to.subs
              case Update => forall p :: Visited(d, inList, from, p, false) ==> Present(to, p)
  {
    hide Allowed, Visited, Present;
    match st
    case Upsert => UpsertSucceeds(d, inList, from, to);
    case Insert => InsertSucceeds(d, inList, from, to);
    case Update => UpdateSucceeds(d, inList, from, to);
  }

  /** At a list an insert needs new keys, an update old ones; after a success the keys are those of both. */
  ghost predicate KeysDecide(st: Strategy, from: Tree, before: Tree, after: Tree, err: Error) {
    && (err.NoError? <==>
          match st
          case Upsert => true
          case Insert => from.subs.Keys !! before.subs.Keys
          case Update => from.subs.Keys <= before.subs.Keys)
    && (err.NoError? ==> after.subs.Keys == before.subs.Keys + from.subs.Keys)
    && (err.NoError? && st.Update? ==> after.subs.Keys == before.subs.Keys)
  }

  lemma EnteredIs(st: Strategy, d: Def, inList: bool, from: Tree, to0: Tree, t: Tree, created: bool, ud: bool,
                  err: Error)
    requires (d.Container? || d.List?) && Entered(st, d, inList, from, to0, t, created, ud, err)
    ensures err.NoError? <==> Allowed(st, d, inList, from, to0)
    ensures err.NoError? ==> t == Result(st, d, inList, from, to0, created, ud)
    ensures Reports(st, err)
  {
  }

  lemma EditOutcome(st: Strategy, d: Def, inList: bool, from: Tree, to0: Tree, t: Tree, ud: bool, err: Error)
    requires Enterable(d) && (err.NoError? <==> Allowed(st, d, inList, from, to0))
    requires err.NoError? ==> t == Result(st, d, inList, from, to0, false, ud)
    ensures err.NoError? && st.Update? ==>
              forall p :: Outer(d, inList, from, p) ==> (Present(t, p) <==> Present(to0, p))
    ensures d.List? && !inList ==> KeysDecide(st, from, to0, t, err)
  {
    EnterableIs(d);
    hide Enterable, Result, Allowed, Outer, Present;
    if err.NoError? && st.Update? {
      forall p | Outer(d, inList, from, p) ensures Present(t, p) <==> Present(to0, p) {
        UpdateKeeps(d, inList, from, to0, false, ud, p);
      }
    }
    if d.List? && !inList {
      ListKeys(st, d, from, to0, ud);
    }
  }

  class Editor {
    const useDefault: bool
    const log: EventLog

    constructor (useDefault: bool, log: EventLog)
      ensures this.useDefault == useDefault && this.log == log
    {
      this.useDefault, this.log := useDefault, log;
    }

    /**
      An edit from end to end. Whether it fails is decided by the containers, lists and outermost items of the source
      that are visited; what it leaves behind is what the steps of the walk make of the target. The calls that tell the
      nodes are a balanced bracket word, or on failure can still be closed: the root is told, bubbling, and all that is
      entered below it once, without bubbling.
    */
    method Edit(from: Tree, to: GoMap, d: Def, inList: bool, st: Strategy, path: Path) returns (err: Error)
      requires to.Valid() && log.Valid() && log.calls == [] && Enterable(d)
      modifies to.Repr, log
      ensures to.Valid() && fresh(to.Repr - old(to.Repr)) && log.Valid()
      ensures err.NoError? <==>
                match st
                case Upsert => true
                case Insert => forall n: string :: Visited(d, inList, from, [n], false) ==> n !in old(to.T).subs
                case Update => forall p :: Visited(d, inList, from, p, false) ==> Present(old(to.T), p)
      ensures err.NoError? ==> to.T == Result(st, d, inList, from, old(to.T), false, useDefault)
      ensures err.NoError? && st.Update? ==>
                forall p :: Outer(d, inList, from, p) ==> (Present(to.T, p) <==> Present(old(to.T), p))
      ensures d.List? && !inList ==> KeysDecide(st, from, old(to.T), to.T, err)
      ensures Reports(st, err)
      ensures log.events == ToldAll(log.calls)
      ensures Open(log.calls).Some? && (err.NoError? ==> Open(log.calls) == Some([]))
      ensures RootCalls(log.calls) ==
              [Call(true, path, true, true)] + if err.NoError? then [Call(false, path, true, true)] else []
      ensures err.NoError? ==>
                forall q :: EnteredPaths(log.calls)[q] ==
                            if |path| < |q| && path == q[..|path|] && Visited(d, inList, from, q[|path|..], true)
                            then 1 else 0
    {
      ghost var t := to.T;
      EnterableIs(d);
      WhenAllowed(st, d, inList, from, t);
      hide *;
      LogStarts();
      err := Enter(from, to, d, inList, false, st, path, true, true);
      EnteredIs(st, d, inList, from, t, to.T, false, useDefault, err);
      EditOutcome(st, d, inList, from, t, to.T, useDefault, err);
      EditTells(d, inList, from, path, err);
    }

    lemma LogStarts()
      requires log.Valid() && log.calls == []
      ensures log.Mark() == LogMark([], [], multiset{})
    {
    }

    lemma EditTells(d: Def, inList: bool, from: Tree, path: Path, err: Error)
      requires log.Valid()
      requires KeptAs(true, err, LogMark([], [], multiset{}), log.Mark(), BelowNode(d, inList, from, path), path)
      ensures log.events == ToldAll(log.calls)
      ensures Open(log.calls).Some? && (err.NoError? ==> Open(log.calls) == Some([]))
      ensures RootCalls(log.calls) ==
              [Call(true, path, true, true)] + if err.NoError? then [Call(false, path, true, true)] else []
      ensures err.NoError? ==>
                forall q :: EnteredPaths(log.calls)[q] ==
                            if |path| < |q| && path == q[..|path|] && Visited(d, inList, from, q[|path|..], true)
                            then 1 else 0
    {
      hide BelowNode, Visited, Open, RootCalls, EnteredPaths, ToldAll;
      if err.NoError? {
        forall q ensures EnteredPaths(log.calls)[q] ==
                         if |path| < |q| && path == q[..|path|] && Visited(d, inList, from, q[|path|..], true)
                         then 1 else 0
        {
          BelowIs(d, inList, from, path, q);
        }
      }
    }

    /** The case of a choice that the target holds. */
    method ChooseCase(to: GoMap, cases: seq<Case>) returns (r: Option<nat>)
      requires to.Valid()
      ensures r == Choose(cases, to.T)
    {
      var i := 0;
      while i < |cases|
        invariant i <= |cases|
        invariant ChooseFrom(cases, to.T, i) == Choose(cases, to.T)
      {
        var defs := cases[i].defs;
        if exists j :: 0 <= j < |defs| && to.Has(defs[j].ident) {
          assert HasData(cases[i], to.T);
          return Some(i);
        }
        assert !HasData(cases[i], to.T);
        i := i + 1;
      }
      return None;
    }

    /** Deletes a child, telling its node and all its ancestors. */
    method Delete(to: GoMap, ident: string, path: Path)
      requires to.Valid() && log.Valid()
      modifies to, log
      ensures to.Valid() && to.Repr == old(to.Repr) && log.Valid()
      ensures to.T == Without(old(to.T), {ident}) && to.subs == old(to.subs) - {ident}
      ensures log.calls == old(log.calls) + [Call(true, path + [ident], false, true)]
                           + [Call(false, path + [ident], false, true)]
      ensures log.Mark() == old(log.Mark())
    {
      log.BeginEdit(path + [ident], false, true);
      to.Remove(ident);
      log.EndEdit(path + [ident], false, true);
    }

    method ClearChoiceCase(to: GoMap, c: Case, path: Path)
      requires to.Valid() && log.Valid()
      modifies to, log
      ensures to.Valid() && to.Repr == old(to.Repr) && log.Valid()
      ensures to.T == Without(old(to.T), Cleared(c.defs, old(to.T)))
              && to.subs == old(to.subs) - Cleared(c.defs, old(to.T))
      ensures log.Mark() == old(log.Mark())
    {
      // names are used once, so what is deleted never is what a choice further on is asked for
      var held := Held(to);
      HeldIs(c.defs, held, to.T);
      var i := new ContainerMetaList(held, c.defs, None);
      ClearAll(to, i, Active(c.defs, held, None), path);
    }

    /** Deletes all that an iterator yields. */
    method ClearAll(to: GoMap, i: ContainerMetaList, ghost items: seq<Item>, path: Path)
      requires to.Valid() && log.Valid() && i.Valid() && i.Rest == items
      modifies to, log, i.Repr
      ensures to.Valid() && to.Repr == old(to.Repr) && log.Valid()
      ensures to.T == Without(old(to.T), Idents(items)) && to.subs == old(to.subs) - Idents(items)
      ensures log.Mark() == old(log.Mark())
    {
      ghost var n := 0;
      ClearNothing(to.T, to.subs, items);
      assert items[0..] == items;
      hide *;
      var m := i.NextOf(items, 0);
      while m.Some?
        invariant i.At(items, n, m) && fresh(i.Repr - old(i.Repr)) && n <= |items|
        invariant to.Valid() && to.Repr == old(to.Repr) && log.Valid()
        invariant to.T == Without(old(to.T), Idents(items[..n])) && to.subs == old(to.subs) - Idents(items[..n])
        invariant log.Mark() == old(log.Mark())
        decreases |items| - n
      {
        i.AtItem(items, n, m);
        ClearedNext(old(to.T), old(to.subs), items, n);
        m := ClearNext(to, i, m.value.def, items, n, path);
        n := n + 1;
      }
      i.AtEnd(items, n, m);
      assert items[..|items|] == items;
    }

    /** Deletes what the iterator has yielded, and goes on with it. */
    method ClearNext(to: GoMap, i: ContainerMetaList, d: Def, ghost items: seq<Item>, ghost n: nat, path: Path)
      returns (m: Option<Item>)
      requires to.Valid() && log.Valid() && i.Valid() && n < |items| && i.Rest == items[n + 1..]
      modifies to, log, i.Repr
      ensures to.Valid() && to.Repr == old(to.Repr) && log.Valid()
      ensures to.T == Without(old(to.T), {d.ident}) && to.subs == old(to.subs) - {d.ident}
      ensures log.Mark() == old(log.Mark())
      ensures i.At(items, n + 1, m) && fresh(i.Repr - old(i.Repr))
    {
      hide *;
      ClearOne(to, d, path);
      m := i.NextOf(items, n + 1);
    }

    /** What a choice can be asked for: the names that the target holds. */
    method Held(to: GoMap) returns (held: Tree)
      requires to.Valid()
      ensures forall n :: Populated(held, n) <==> Populated(to.T, n)
    {
      held := Tree(to.leafs, map k | k in to.subs :: EMPTY);
    }

    lemma HeldIs(defs: seq<Def>, held: Tree, t: Tree)
      requires forall n :: Populated(held, n) <==> Populated(t, n)
      ensures Idents(Active(defs, held, None)) == Cleared(defs, t)
    {
      ActiveSame(defs, held, t, None);
    }

    method ClearOne(to: GoMap, d: Def, path: Path)
      requires to.Valid() && log.Valid()
      modifies to, log
      ensures to.Valid() && to.Repr == old(to.Repr) && log.Valid()
      ensures to.T == Without(old(to.T), {d.ident}) && to.subs == old(to.subs) - {d.ident}
      ensures log.Mark() == old(log.Mark())
    {
      if d.Leaf? {
        to.Remove(d.ident);
      } else if to.Has(d.ident) {
        Delete(to, d.ident, path);
      } else {
        assert to.T.leafs == to.T.leafs - {d.ident} && to.T.subs == to.T.subs - {d.ident};
        assert to.subs == to.subs - {d.ident};
      }
    }

    lemma ClearNothing(t: Tree, subs: map<string, GoMap>, items: seq<Item>)
      ensures t == Without(t, Idents(items[..0])) && subs == subs - Idents(items[..0])
    {
      assert Idents(items[..0]) == {};
      assert t.leafs - {} == t.leafs && t.subs - {} == t.subs;
    }

    lemma ClearedNext(t: Tree, subs: map<string, GoMap>, items: seq<Item>, n: nat)
      requires n < |items|
      ensures Without(Without(t, Idents(items[..n])), {items[n].def.ident}) == Without(t, Idents(items[..n + 1]))
      ensures subs - Idents(items[..n]) - {items[n].def.ident} == subs - Idents(items[..n + 1])
    {
      IdentsNext(items, n);
      var a, b := Idents(items[..n]), {items[n].def.ident};
      assert t.leafs - a - b == t.leafs - (a + b) && t.subs - a - b == t.subs - (a + b);
      assert subs - a - b == subs - (a + b);
    }

    /** Deletes the data of another case than the one that is about to be written. */
    method ClearOnDifferentChoiceCase(to: GoMap, home: Option<Home>, ghost ident: string, path: Path)
      requires to.Valid() && log.Valid() && GoodHome(home, ident)
      modifies to, log
      ensures to.Valid() && to.Repr == old(to.Repr) && log.Valid()
      ensures to.T == ClearOther(old(to.T), home)
      ensures ident in to.subs <==> ident in old(to.subs)
      ensures forall k :: k in to.subs ==> k in old(to.subs) && to.subs[k] == old(to.subs)[k]
      ensures log.Mark() == old(log.Mark())
    {
      if home.None? {
        return;
      }
      var existing := ChooseCase(to, home.value.cases);
      if existing.None? || existing.value == home.value.mine {
        return;
      }
      ActiveNames(home.value.cases[existing.value].defs, to.T, None);
      ClearChoiceCase(to, home.value.cases[existing.value], path);
    }

    method Leaf(from: Tree, to: GoMap, it: Item, created: bool, st: Strategy, path: Path)
      requires to.Valid() && log.Valid() && it.def.Leaf? && GoodHome(it.home, it.def.ident)
      modifies to, log
      ensures to.Valid() && to.Repr == old(to.Repr) && log.Valid()
      ensures to.T == StepTree(st, it, from, old(to.T), Defaults(st, created, useDefault), useDefault)
      ensures log.Mark() == old(log.Mark())
    {
      var id := it.def.ident;
      var val := if id in from.leafs then Some(from.leafs[id]) else None;
      if val.None? && ((st != Update && created) || useDefault) {
        val := it.def.default;
      }
      if val.Some? {
        if st == Upsert {
          ClearOnDifferentChoiceCase(to, it.home, id, path);
        }
        to.SetField(id, val.value);
      }
    }

    /** Enters a child of the target. */
    method EnterChild(from: Tree, to: GoMap, key: string, d: Def, inList: bool, created: bool, st: Strategy, path: Path)
      returns (err: Error)
      requires to.Valid() && log.Valid() && key in to.subs && Enterable(d)
      modifies to.Repr, log
      ensures to.Valid() && fresh(to.Repr - old(to.Repr)) && log.Valid()
      ensures err.NoError? <==> Allowed(st, d, inList, from, old(to.T.subs[key]))
      ensures err.NoError? ==>
                to.T == Put(old(to.T), key, Result(st, d, inList, from, old(to.T).subs[key], created, useDefault))
      ensures Reports(st, err)
      ensures Kept(err, old(log.Mark()), log.Mark(), {path} + BelowNode(d, inList, from, path))
      decreases from, 7
    {
      hide Allowed, Result, Enterable, Reports, Kept, KeptAtRoot, BelowNode;
      assert to.Holds(key);
      var child := to.subs[key];
      err := Enter(from, child, d, inList, created, st, path, false, false);
      assert to.subs == old(to.subs) && to.Repr == old(to.Repr) && to.T == old(to.T);
      forall j | j in to.subs && j != key
        ensures to.subs[j].Repr == old(to.subs[j].Repr)
        ensures to.Holds(j) && to.subs[j].Repr !! to.subs[key].Repr
      {
        assert old(to.Holds(j)) && old(to.subs[j].Repr !! to.subs[key].Repr);
        assert old(to.subs[j].Valid());
        assert to.subs[j] in old(to.subs[j].Repr);
        assert to.subs[j].Repr == old(to.subs[j].Repr);
        assert to.subs[j].Valid();
      }
      to.Absorb(key);
    }

    /** Enters a child of the target, which is created if need be. */
    method EnterOrCreate(from: Tree, to: GoMap, key: string, d: Def, inList: bool, st: Strategy, path: Path)
      returns (err: Error)
      requires to.Valid() && log.Valid() && Enterable(d)
      modifies to.Repr, log
      ensures to.Valid() && fresh(to.Repr - old(to.Repr)) && log.Valid()
      ensures err.NoError? <==> Allowed(st, d, inList, from, Sub(old(to.T), key))
      ensures err.NoError? ==>
                to.T == Put(old(to.T), key,
                            Result(st, d, inList, from, Sub(old(to.T), key), key !in old(to.T).subs, useDefault))
      ensures Reports(st, err)
      ensures Kept(err, old(log.Mark()), log.Mark(), {path} + BelowNode(d, inList, from, path))
      decreases from, 8
    {
      assert to.T.subs.Keys == to.subs.Keys;
      hide *;
      var created := key !in to.subs;
      ghost var t := to.T;
      if created {
        var _ := to.Create(key);
      }
      PutTwice(t, key);
      assert to.T == Put(t, key, Sub(t, key));
      err := EnterChild(from, to, key, d, inList, created, st, path);
    }

    ghost function Put(t: Tree, key: string, sub: Tree): Tree {
      Tree(t.leafs, t.subs[key := sub])
    }

    lemma PutTwice(t: Tree, key: string)
      ensures key in t.subs ==> Put(t, key, Sub(t, key)) == t && Sub(t, key) == t.subs[key]
      ensures key !in t.subs ==> Put(t, key, Sub(t, key)) == Tree(t.leafs, t.subs[key := EMPTY]) && Sub(t, key) == EMPTY
      ensures key in Put(t, key, Sub(t, key)).subs && Put(t, key, Sub(t, key)).subs[key] == Sub(t, key)
      ensures forall r: Tree :: Put(Put(t, key, Sub(t, key)), key, r) == Put(t, key, r)
    {
    }

    method Enter(from: Tree, to: GoMap, d: Def, inList: bool, created: bool, st: Strategy, path: Path, root: bool,
                 bubble: bool)
      returns (err: Error)
      requires to.Valid() && log.Valid() && Enterable(d) && bubble == root
      modifies to.Repr, log
      ensures to.Valid() && fresh(to.Repr - old(to.Repr)) && log.Valid()
      ensures Entered(st, d, inList, from, old(to.T), to.T, created, useDefault, err)
      ensures KeptAs(root, err, old(log.Mark()), log.Mark(), BelowNode(d, inList, from, path), path)
      decreases from, 6
    {
      hide *;
      ghost var a := log.Mark();
      log.BeginEdit(path, root, bubble);
      err := Content(from, to, d, inList, created, st, path);
      NotBelow(d, inList, from, path);
      Leave(err, path, root, bubble, a, BelowNode(d, inList, from, path));
    }

    /** The end of an edit that began at `a`, unless it failed. */
    method Leave(err: Error, path: Path, root: bool, bubble: bool, ghost a: LogMark, ghost told: set<Path>)
      requires log.Valid() && bubble == root && path !in told
      requires Kept(err, Marked(a, Call(true, path, root, bubble)), log.Mark(), told)
      modifies log
      ensures log.Valid() && KeptAs(root, err, a, log.Mark(), told, path)
    {
      ghost var b, c := Marked(a, Call(true, path, root, bubble)), log.Mark();
      KeptOpen(err, b, c, told);
      if err.NoError? {
        log.EndEdit(path, root, bubble);
      }
      KeptAround(err, a, b, c, log.Mark(), path, root, told);
    }

    method Content(from: Tree, to: GoMap, d: Def, inList: bool, created: bool, st: Strategy, path: Path)
      returns (err: Error)
      requires to.Valid() && log.Valid() && Enterable(d)
      modifies to.Repr, log
      ensures to.Valid() && fresh(to.Repr - old(to.Repr)) && log.Valid()
      ensures Entered(st, d, inList, from, old(to.T), to.T, created, useDefault, err)
      ensures Kept(err, old(log.Mark()), log.Mark(), BelowNode(d, inList, from, path))
      decreases from, 5
    {
      EnterFacts(st, d, inList, from, to.T, created, useDefault);
      BelowParts(d, inList, from, path);
      hide Allowed, Result, Enterable, Reports, Kept, Admits, AdmitsRows, Edited, EditedRows, Plain, GoMap.Valid,
           EventLog.Valid, BelowNode, BelowItems, BelowRows;
      if d.List? && !inList {
        err := Rows(from, to, d, st, path);
      } else {
        err := Definitions(from, to, d, created, st, path);
      }
    }

    method Rows(from: Tree, to: GoMap, d: Def, st: Strategy, path: Path) returns (err: Error)
      requires to.Valid() && log.Valid() && d.List? && Enterable(d)
      modifies to.Repr, log
      ensures to.Valid() && fresh(to.Repr - old(to.Repr)) && log.Valid()
      ensures err.NoError? <==> AdmitsRows(st, from, old(to.T))
      ensures err.NoError? ==> to.T == EditedRows(d.defs, from, old(to.T), useDefault)
      ensures KeysDecide(st, from, old(to.T), to.T, err)
      ensures Reports(st, err)
      ensures Kept(err, old(log.Mark()), log.Mark(), BelowRows(d, from, from.subs.Keys, path))
      decreases from, 4
    {
      hide *;
      err := NoError;
      var keys := from.subs.Keys;
      ghost var to0, mark := to.T, log.Mark();
      ghost var done: set<string> := {};
      RowsStart(st, d, from, to0, useDefault);
      KeptSame(NoError, mark);
      NoRowsBelow(d, from, path);
      while keys != {}
        invariant err.NoError?
        invariant to.Valid() && fresh(to.Repr - old(to.Repr)) && log.Valid()
        invariant Kept(NoError, mark, log.Mark(), BelowRows(d, from, done, path))
        invariant keys !! done && keys + done == from.subs.Keys
        invariant RowsSoFar(st, d, from, to0, to.T, done, useDefault)
        decreases keys
      {
        var key :| key in keys;
        err := NextRow(from, to, d, key, to0, done, st, path, mark);
        if !err.NoError? {
          return;
        }
        keys, done := keys - {key}, done + {key};
      }
      assert done == from.subs.Keys;
      RowsDone(st, d, from, to0, to.T, useDefault);
    }

    /** What holds when the items of some keys have been dealt with. */
    ghost predicate RowsSoFar(st: Strategy, d: Def, from: Tree, to0: Tree, t: Tree, done: set<string>, ud: bool) {
      && d.List? && done <= from.subs.Keys && t == SomeRows(d.defs, from, to0, done, ud)
      && forall k :: k in done ==> AdmitsRow(st, k, to0)
    }

    lemma RowsStart(st: Strategy, d: Def, from: Tree, to0: Tree, ud: bool)
      requires d.List?
      ensures RowsSoFar(st, d, from, to0, to0, {}, ud) && Reports(st, NoError)
    {
      NoRows(d.defs, from, to0, ud);
    }

    lemma RowsNext(st: Strategy, d: Def, from: Tree, to0: Tree, t: Tree, done: set<string>, key: string, ud: bool)
      requires RowsSoFar(st, d, from, to0, t, done, ud) && key in from.subs && key !in done
      ensures (key in t.subs <==> key in to0.subs) && (key in to0.subs ==> t.subs[key] == to0.subs[key])
      ensures AdmitsRow(st, key, to0) ==>
                RowsSoFar(st, d, from, to0, Tree(t.leafs, t.subs[key := EditedRow(d.defs, from, to0, key, ud)]),
                          done + {key}, ud)
    {
      hide EditedRow;
      RowUntouched(d.defs, from, to0, done, key, ud);
      OneMoreRow(d.defs, from, to0, done, key, ud);
    }

    /** One turn of the loop over the items. */
    method NextRow(from: Tree, to: GoMap, d: Def, key: string, ghost to0: Tree, ghost done: set<string>, st: Strategy,
                   path: Path, ghost mark: LogMark) returns (err: Error)
      requires to.Valid() && log.Valid() && d.List? && Enterable(d) && key in from.subs && key !in done
      requires RowsSoFar(st, d, from, to0, to.T, done, useDefault) && done <= from.subs.Keys
      requires Kept(NoError, mark, log.Mark(), BelowRows(d, from, done, path))
      modifies to.Repr, log
      ensures to.Valid() && fresh(to.Repr - old(to.Repr)) && log.Valid() && Reports(st, err)
      ensures err.NoError? ==>
                RowsSoFar(st, d, from, to0, to.T, done + {key}, useDefault)
                && Kept(NoError, mark, log.Mark(), BelowRows(d, from, done + {key}, path))
      ensures !err.NoError? ==>
                !AdmitsRows(st, from, to0) && KeysDecide(st, from, to0, to.T, err)
                && Kept(err, mark, log.Mark(), BelowRows(d, from, from.subs.Keys, path))
      decreases from, 3
    {
      hide *;
      ghost var before, t := log.Mark(), to.T;
      RowsNext(st, d, from, to0, t, done, key, useDefault);
      RowsApart(d, from, done, key, path);
      err := Row(from, to, d, key, to0, st, path);
      KeptBoth(err, mark, before, log.Mark(), BelowRows(d, from, done, path), BelowRow(d, from, key, path));
      if !err.NoError? {
        RowsRefused(st, d, from, to0, to.T, err, key);
        KeptFailed(err, mark, log.Mark(), BelowRows(d, from, done + {key}, path),
                   BelowRows(d, from, from.subs.Keys, path));
      }
    }

    lemma NoRowsBelow(d: Def, from: Tree, path: Path)
      ensures BelowRows(d, from, {}, path) == {}
    {
    }

    lemma RowsRefused(st: Strategy, d: Def, from: Tree, to0: Tree, t: Tree, err: Error, key: string)
      requires key in from.subs && !AdmitsRow(st, key, to0) && !err.NoError?
      ensures KeysDecide(st, from, to0, t, err) && !AdmitsRows(st, from, to0)
    {
    }

    lemma RowsDone(st: Strategy, d: Def, from: Tree, to0: Tree, t: Tree, ud: bool)
      requires RowsSoFar(st, d, from, to0, t, from.subs.Keys, ud)
      ensures AdmitsRows(st, from, to0) && t == EditedRows(d.defs, from, to0, ud)
      ensures KeysDecide(st, from, to0, t, NoError)
    {
      hide EditedRow, Edited, SomeRows, EditedRows, KeysDecide;
      AllRows(d.defs, from, to0, ud);
      RowKeys(st, d, from, to0, ud);
    }

    lemma RowKeys(st: Strategy, d: Def, from: Tree, to0: Tree, ud: bool)
      requires d.List? && forall k :: k in from.subs.Keys ==> AdmitsRow(st, k, to0)
      ensures KeysDecide(st, from, to0, EditedRows(d.defs, from, to0, ud), NoError)
    {
      hide Edited;
      assert forall k :: k in from.subs ==> AdmitsRow(st, k, to0);
    }

    /** The item of one key. */
    method Row(from: Tree, to: GoMap, d: Def, key: string, ghost to0: Tree, st: Strategy, path: Path)
      returns (err: Error)
      requires to.Valid() && log.Valid() && d.List? && Enterable(d) && key in from.subs
      requires (key in to.T.subs <==> key in to0.subs) && (key in to0.subs ==> to.T.subs[key] == to0.subs[key])
      modifies to.Repr, log
      ensures to.Valid() && fresh(to.Repr - old(to.Repr)) && log.Valid()
      ensures err.NoError? <==> AdmitsRow(st, key, to0)
      ensures err.NoError? <==> (st.Insert? ==> key !in to0.subs) && (st.Update? ==> key in to0.subs)
      ensures err.NoError? ==>
                to.T == Tree(old(to.T).leafs, old(to.T).subs[key := EditedRow(d.defs, from, to0, key, useDefault)])
      ensures Reports(st, err)
      ensures Kept(err, old(log.Mark()), log.Mark(), BelowRow(d, from, key, path))
      decreases from, 2
    {
      hide Edited, Plain, Admits, EditedRows, BelowNode;
      var existing := key in to.subs;
      if st == Update && !existing {
        return NotFoundError(key);
      }
      if st == Insert && existing {
        return ConflictError(key);
      }
      // the edits below a list item are always upserts
      UpsertAdmits(d.defs, from.subs[key], Sub(to0, key));
      err := EnterOrCreate(from.subs[key], to, key, d, true, Upsert, path + [key]);
    }

    method Definitions(from: Tree, to: GoMap, d: Def, created: bool, st: Strategy, path: Path) returns (err: Error)
      requires to.Valid() && log.Valid() && (d.Container? || d.List?) && Enterable(d)
      modifies to.Repr, log
      ensures to.Valid() && fresh(to.Repr - old(to.Repr)) && log.Valid()
      ensures err.NoError? <==> Admits(st, d.defs, from, old(to.T))
      ensures err.NoError? ==> to.T == Edited(st, d.defs, from, old(to.T), created, useDefault)
      ensures Reports(st, err)
      ensures Kept(err, old(log.Mark()), log.Mark(), BelowItems(Active(d.defs, from, None), from, path))
      decreases from, 4
    {
      EnterableIs(d);
      hide *;
      ghost var to0 := to.T;
      StartWalk(st, d.defs, from, to0, created, useDefault);
      err := Walk(from, to, d.defs, to0, created, st, path);
      OutcomeOf(st, d.defs, from, to0, to.T, created, useDefault, |Active(d.defs, from, None)|, err, old(log.Mark()),
                log.Mark(), path);
      assert Active(d.defs, from, None)[..|Active(d.defs, from, None)|] == Active(d.defs, from, None);
      if err.NoError? {
        EndWalk(st, d.defs, from, to0, to.T, created, useDefault);
      }
    }

    method Walk(from: Tree, to: GoMap, defs: seq<Def>, ghost to0: Tree, created: bool,
                st: Strategy, path: Path) returns (err: Error)
      requires to.Valid() && log.Valid() && Plain(defs)
      requires Done(st, defs, from, to0, to.T, created, useDefault, 0)
      modifies to.Repr, log
      ensures to.Valid() && fresh(to.Repr - old(to.Repr)) && log.Valid()
      ensures Outcome(st, defs, from, to0, to.T, created, useDefault, |Active(defs, from, None)|, err, old(log.Mark()),
                      log.Mark(), path)
      decreases from, 3
    {
      hide *;
      err := NoError;
      ghost var items := Active(defs, from, None);
      OutcomeStarts(st, defs, from, to0, to.T, created, useDefault, log.Mark(), path);
      assert items[0..] == items;
      var ml := new ContainerMetaList(from, defs, None);
      var m := ml.NextOf(items, 0);
      ghost var n := 0;
      while m.Some? && err.NoError?
        invariant ml.At(items, n, m) && fresh(ml.Repr) && n <= |items|
        invariant to.Valid() && fresh(to.Repr - old(to.Repr)) && log.Valid()
        invariant Outcome(st, defs, from, to0, to.T, created, useDefault, if err.NoError? then n else |items|,
                          err, old(log.Mark()), log.Mark(), path)
        decreases |items| - n
      {
        ml.AtItem(items, n, m);
        err, m := Turn(from, to, ml, m.value, defs, to0, n, created, st, path, old(log.Mark()));
        n := n + 1;
      }
      if err.NoError? {
        ml.AtEnd(items, n, m);
      }
    }

    /** One turn of the walk's loop. */
    method Turn(from: Tree, to: GoMap, ml: ContainerMetaList, it: Item, ghost defs: seq<Def>, ghost to0: Tree,
                ghost n: nat, created: bool, st: Strategy, path: Path, ghost before: LogMark)
      returns (err: Error, m: Option<Item>)
      requires to.Valid() && log.Valid() && Plain(defs)
      requires n < |Active(defs, from, None)| && it == Active(defs, from, None)[n]
      requires ml.Valid() && ml.Rest == Active(defs, from, None)[n + 1..]
      requires Outcome(st, defs, from, to0, to.T, created, useDefault, n, NoError, before, log.Mark(), path)
      modifies to.Repr, log, ml.Repr
      ensures to.Valid() && fresh(to.Repr - old(to.Repr)) && log.Valid()
      ensures ml.At(Active(defs, from, None), n + 1, m) && fresh(ml.Repr - old(ml.Repr))
      ensures Outcome(st, defs, from, to0, to.T, created, useDefault,
                      if err.NoError? then n + 1 else |Active(defs, from, None)|, err, before, log.Mark(), path)
      decreases from, 2, 1
    {
      hide *;
      err := Definition(from, to, it, defs, to0, n, created, st, path, before);
      m := ml.NextOf(Active(defs, from, None), n + 1);
    }

    /** One definition of the walk, a leaf or a container or list. */
    method Definition(from: Tree, to: GoMap, m: Item, ghost defs: seq<Def>, ghost to0: Tree, ghost n: nat,
                      created: bool, st: Strategy, path: Path, ghost before: LogMark) returns (err: Error)
      requires to.Valid() && log.Valid() && Plain(defs)
      requires n < |Active(defs, from, None)| && m == Active(defs, from, None)[n]
      requires Outcome(st, defs, from, to0, to.T, created, useDefault, n, NoError, before, log.Mark(), path)
      modifies to.Repr, log
      ensures to.Valid() && fresh(to.Repr - old(to.Repr)) && log.Valid()
      ensures Outcome(st, defs, from, to0, to.T, created, useDefault,
                      if err.NoError? then n + 1 else |Active(defs, from, None)|, err, before, log.Mark(), path)
      decreases from, 2, 0
    {
      assert to in to.Repr && to.T.subs.Keys == to.subs.Keys;
      hide *;
      ghost var t, mark := to.T, log.Mark();
      OutcomeOf(st, defs, from, to0, t, created, useDefault, n, NoError, before, mark, path);
      WalkAt(st, defs, from, to0, t, created, useDefault, n);
      if m.def.Leaf? {
        Leaf(from, to, m, created, st, path);
        err := NoError;
        LeafTells(m, from, path, mark);
      } else {
        err := Node(from, to, m, to0, Defaults(st, created, useDefault), st, path);
      }
      if err.NoError? {
        WalkNext(st, defs, from, to0, t, to.T, created, useDefault, n);
        OutcomeNext(st, defs, from, to0, to.T, created, useDefault, n, before, mark, log.Mark(), path);
      } else {
        WalkRefused(st, defs, from, to0, n);
        OutcomeRefused(st, defs, from, to0, to.T, created, useDefault, n, err, before, mark, log.Mark(),
                       BelowItem(m, from, path), path);
      }
    }

    lemma LeafTells(m: Item, from: Tree, path: Path, mark: LogMark)
      requires m.def.Leaf?
      ensures Kept(NoError, mark, mark, BelowItem(m, from, path)) && Reports(Upsert, NoError)
    {
    }

    /** A container or list that the source may hold. */
    method Node(from: Tree, to: GoMap, it: Item, ghost to0: Tree, ghost u: bool, st: Strategy, path: Path)
      returns (err: Error)
      requires to.Valid() && log.Valid() && GoodHome(it.home, it.def.ident)
      requires it.def.Container? || it.def.List?
      requires Enterable(it.def)
      requires it.def.ident in to.subs <==> it.def.ident in to0.subs
      requires it.def.ident in to0.subs ==> to.T.subs[it.def.ident] == to0.subs[it.def.ident]
      modifies to.Repr, log
      ensures to.Valid() && fresh(to.Repr - old(to.Repr)) && log.Valid()
      ensures err.NoError? <==> (it.def.ident in from.subs ==> AdmitsChild(st, it.def, from.subs[it.def.ident], to0))
      ensures err.NoError? ==> to.T == StepTree(st, it, from, old(to.T), u, useDefault)
      ensures Reports(st, err)
      ensures Kept(err, old(log.Mark()), log.Mark(), BelowItem(it, from, path))
      decreases from, 1
    {
      hide Edited, EditedRows, Plain, Admits, AdmitsRows, BelowNode;
      err := NoError;
      var id := it.def.ident;
      if id !in from.subs {
        return;
      }
      var existing := id in to.subs;
      match st {
        case Insert =>
          if existing {
            return ConflictError(id);
          }
        case Upsert =>
          ClearOnDifferentChoiceCase(to, it.home, id, path);
        case Update =>
          if !existing {
            return NotFoundError(id);
          }
      }
      assert Sub(to.T, id) == Sub(to0, id);
      ChildResult(st, it.def, from.subs[id], to0, !existing, useDefault);
      err := EnterOrCreate(from.subs[id], to, id, it.def, false, st, path + [id]);
    }

    lemma IdentsNext(items: seq<Item>, n: nat)
      requires n < |items|
      ensures Idents(items[..n + 1]) == Idents(items[..n]) + {items[n].def.ident}
    {
      IdentsAppend(items[..n], [items[n]]);
      assert items[..n + 1] == items[..n] + [items[n]];
      assert Idents([items[n]]) == {items[n].def.ident} by { assert [items[n]][0].def.ident == items[n].def.ident; }
    }
  }
}
