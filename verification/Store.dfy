/**
  The target of an edit, changed in place: Go maps within Go maps, read and written as `childMap` and
  `listMap` do (nodeutil/reflect.go), and the log of the edit events its nodes receive.
*/
module Store {
  import opened Wrappers
  import opened DataSchema
  import opened EditSpec
  import opened EditStep

  class GoMap {
    var leafs: map<string, Value>
    var subs: map<string, GoMap>
    ghost var T: Tree
    ghost var Repr: set<GoMap>

    ghost predicate Valid()
      reads this, Repr
      decreases Repr
    {
      && this in Repr
      && T.leafs == leafs && T.subs.Keys == subs.Keys
      && (forall k :: k in subs ==> Holds(k))
      && (forall j, k :: j in subs && k in subs && j != k ==> subs[j].Repr !! subs[k].Repr)
    }

    ghost predicate Holds(k: string)
      requires k in subs
      reads this, Repr
      decreases Repr, 0
    {
      && this in Repr && subs[k] in Repr && subs[k].Repr <= Repr && this !in subs[k].Repr
      && subs[k].Valid()
      && k in T.subs && subs[k].T == T.subs[k]
    }

    constructor ()
      ensures Valid() && fresh(Repr) && T == EMPTY
    {
      leafs, subs := map[], map[];
      T, Repr := EMPTY, {this};
    }

    predicate Has(ident: string)
      reads this
    {
      ident in leafs || ident in subs
    }

    /** Writes a leaf. */
    method SetField(ident: string, value: Value)
      requires Valid()
      modifies this
      ensures Valid() && Repr == old(Repr)
      ensures T == Tree(old(T).leafs[ident := value], old(T).subs) && subs == old(subs)
    {
      leafs := leafs[ident := value];
      T := Tree(T.leafs[ident := value], T.subs);
    }

    /** Deletes whatever the map holds under a name. */
    method Remove(ident: string)
      requires Valid()
      modifies this
      ensures Valid() && Repr == old(Repr)
      ensures T == Without(old(T), {ident}) && subs == old(subs) - {ident}
    {
      leafs, subs := leafs - {ident}, subs - {ident};
      T := Without(T, {ident});
    }

    /** Puts a new, empty map under a name. */
    method Create(ident: string) returns (child: GoMap)
      requires Valid()
      modifies this
      ensures Valid() && fresh(Repr - old(Repr))
      ensures T == Tree(old(T).leafs, old(T).subs[ident := EMPTY])
      ensures subs == old(subs)[ident := child] && fresh(child) && child.T == EMPTY
    {
      child := new GoMap();
      subs := subs[ident := child];
      Repr := Repr + child.Repr;
      T := Tree(T.leafs, T.subs[ident := EMPTY]);
    }

    /** Everything but the child under `k` is in order, and that child is by itself. */
    ghost predicate ValidBut(k: string)
      reads this, Repr, if k in subs then subs[k].Repr else {}, if k in subs then {subs[k]} else {}
    {
      && this in Repr && k in subs
      && T.leafs == leafs && T.subs.Keys == subs.Keys
      && subs[k].Valid() && this !in subs[k].Repr && subs[k] in subs[k].Repr
      && (forall j :: j in subs && j != k ==> Holds(j) && subs[j].Repr !! subs[k].Repr)
      && (forall i, j :: i in subs && j in subs && i != j && i != k && j != k ==> subs[i].Repr !! subs[j].Repr)
    }

    /** Takes the changes of the child under `k` into account. */
    ghost method Absorb(k: string)
      requires ValidBut(k)
      modifies this`T, this`Repr
      ensures Valid() && Repr == old(Repr) + subs[k].Repr
      ensures T == Tree(old(T).leafs, old(T).subs[k := subs[k].T])
    {
      T := Tree(T.leafs, T.subs[k := subs[k].T]);
      Repr := Repr + subs[k].Repr;
      forall j | j in subs ensures Holds(j) {
      }
    }
  }

  // ---------- events ----------

  type Path = seq<string>

  /** A call of Selection.beginEdit or endEdit. */
  datatype Call = Call(begin: bool, path: Path, editRoot: bool, bubble: bool)

  /** A call of Node.BeginEdit or EndEdit, on the node at `path`. */
  datatype Event = Event(begin: bool, path: Path, editRoot: bool)

  /** What one call tells the nodes: the selected one, then its ancestors if the call bubbles. */
  ghost function Told(c: Call): seq<Event> {
    [Event(c.begin, c.path, c.editRoot)] + if c.bubble then Ancestors(c.begin, c.path) else []
  }

  ghost function Ancestors(begin: bool, path: Path): seq<Event> {
    if path == [] then [] else
      [Event(begin, path[..|path| - 1], false)] + Ancestors(begin, path[..|path| - 1])
  }

  ghost function ToldAll(calls: seq<Call>): seq<Event> {
    if calls == [] then [] else ToldAll(calls[..|calls| - 1]) + Told(calls[|calls| - 1])
  }

  /**
    A call tells the node, and if it bubbles each of its ancestors up to the root of the tree; only the node itself is
    told that it is the root of an edit.
  */
  lemma {:induction false} ToldIs(c: Call)
    ensures |Told(c)| == 1 + if c.bubble then |c.path| else 0
    ensures Told(c)[0] == Event(c.begin, c.path, c.editRoot)
    ensures forall k :: 1 <= k < |Told(c)| ==> Told(c)[k] == Event(c.begin, c.path[..|c.path| - k], false)
  {
    AncestorsAre(c.begin, c.path);
  }

  lemma {:induction false} AncestorsAre(begin: bool, path: Path)
    ensures |Ancestors(begin, path)| == |path|
    ensures forall k :: 0 <= k < |path| ==> Ancestors(begin, path)[k] == Event(begin, path[..|path| - 1 - k], false)
  {
    if path != [] {
      var up := path[..|path| - 1];
      AncestorsAre(begin, up);
      forall k | 0 <= k < |path| ensures Ancestors(begin, path)[k] == Event(begin, path[..|path| - 1 - k], false) {
        assert k > 0 ==> up[..|up| - k] == path[..|up| - k];
      }
    }
  }

  /** The begins that are open after some calls; None if an end does not match. */
  ghost function Open(calls: seq<Call>): Option<seq<Call>> {
    if calls == [] then Some([]) else
      match Open(calls[..|calls| - 1])
      case None => None
      case Some(open) =>
        var c := calls[|calls| - 1];
        if c.begin then Some(open + [c])
        else if open != [] && open[|open| - 1] == c.(begin := true) then Some(open[..|open| - 1])
        else None
  }

  /** The calls for the root of an edit. */
  ghost function RootCalls(calls: seq<Call>): seq<Call> {
    if calls == [] then [] else
      RootCalls(calls[..|calls| - 1]) + if calls[|calls| - 1].editRoot then [calls[|calls| - 1]] else []
  }

  /** The paths of the nodes that are entered below the root: begun without bubbling. */
  ghost function EnteredPaths(calls: seq<Call>): multiset<Path> {
    if calls == [] then multiset{} else
      EnteredPaths(calls[..|calls| - 1])
      + if Entering(calls[|calls| - 1]) then multiset{calls[|calls| - 1].path} else multiset{}
  }

  predicate Entering(c: Call) {
    c.begin && !c.editRoot && !c.bubble
  }

  /** How many nodes were told that they are the root of an edit. */
  ghost function Roots(events: seq<Event>, begin: bool): nat {
    if events == [] then 0 else
      Roots(events[..|events| - 1], begin)
      + if events[|events| - 1].editRoot && events[|events| - 1].begin == begin then 1 else 0
  }

  lemma {:induction false} RootsAppend(a: seq<Event>, b: seq<Event>, begin: bool)
    ensures Roots(a + b, begin) == Roots(a, begin) + Roots(b, begin)
  {
    if b == [] {
      assert a + b == a;
    } else {
      assert (a + b)[..|a + b| - 1] == a + b[..|b| - 1];
      RootsAppend(a, b[..|b| - 1], begin);
    }
  }

  lemma {:induction false} AncestorsAreNoRoots(b: bool, path: Path, begin: bool)
    ensures Roots(Ancestors(b, path), begin) == 0
  {
    if path != [] {
      AncestorsAreNoRoots(b, path[..|path| - 1], begin);
      RootsAppend([Event(b, path[..|path| - 1], false)], Ancestors(b, path[..|path| - 1]), begin);
      assert Roots([Event(b, path[..|path| - 1], false)], begin) == 0;
    }
  }

  lemma ToldRoots(c: Call, begin: bool)
    ensures Roots(Told(c), begin) == if c.editRoot && c.begin == begin then 1 else 0
  {
    var one := [Event(c.begin, c.path, c.editRoot)];
    AncestorsAreNoRoots(c.begin, c.path, begin);
    RootsAppend(one, if c.bubble then Ancestors(c.begin, c.path) else [], begin);
    assert one[..0] == [];
    assert Roots(one, begin) == Roots(one[..0], begin) + if c.editRoot && c.begin == begin then 1 else 0;
  }

  function Closing(open: seq<Call>): seq<Call> {
    if open == [] then [] else [open[|open| - 1].(begin := false)] + Closing(open[..|open| - 1])
  }

  lemma {:induction false} OpenBegins(calls: seq<Call>)
    requires Open(calls).Some?
    ensures forall i :: 0 <= i < |Open(calls).value| ==> Open(calls).value[i].begin
  {
    if calls != [] {
      OpenBegins(calls[..|calls| - 1]);
    }
  }

  /** Calls without a mismatched end are the beginning of a balanced word: ending what is open balances them. */
  lemma {:induction false} CanBeClosed(calls: seq<Call>)
    requires Open(calls).Some?
    ensures Open(calls + Closing(Open(calls).value)) == Some([])
    decreases |Open(calls).value|
  {
    var open := Open(calls).value;
    OpenBegins(calls);
    if open == [] {
      assert calls + Closing(open) == calls;
    } else {
      var c := open[|open| - 1].(begin := false);
      OneMoreCall(calls, c);
      hide Open;
      CanBeClosed(calls + [c]);
      assert calls + Closing(open) == calls + [c] + Closing(open[..|open| - 1]);
    }
  }

  /** And whatever can be completed has no mismatched end. */
  lemma {:induction false} PrefixOpens(calls: seq<Call>, rest: seq<Call>)
    requires Open(calls + rest).Some?
    ensures Open(calls).Some?
    decreases |rest|
  {
    if rest == [] {
      assert calls + rest == calls;
    } else {
      assert (calls + rest)[..|calls + rest| - 1] == calls + rest[..|rest| - 1];
      PrefixOpens(calls, rest[..|rest| - 1]);
    }
  }

  /** The begins that are open, the calls for the root of the edit, and the paths that were entered below it. */
  datatype LogMark = LogMark(open: seq<Call>, roots: seq<Call>, entered: multiset<Path>)

  /** The same after one more call, which begins an edit or ends the one begun last. */
  ghost function Marked(m: LogMark, c: Call): LogMark {
    LogMark(if c.begin then m.open + [c] else if m.open == [] then [] else m.open[..|m.open| - 1],
            m.roots + if c.editRoot then [c] else [],
            m.entered + if Entering(c) then multiset{c.path} else multiset{})
  }

  class EventLog {
    var events: seq<Event>
    ghost var calls: seq<Call>
    ghost var open: seq<Call>

    ghost predicate Valid()
      reads this
    {
      events == ToldAll(calls) && Open(calls) == Some(open)
    }

    ghost function Mark(): (m: LogMark)
      reads this
    {
      LogMark(open, RootCalls(calls), EnteredPaths(calls))
    }

    constructor ()
      ensures Valid() && calls == [] && open == [] && events == []
    {
      events, calls, open := [], [], [];
    }

    /** The loop by which Selection.beginEdit and endEdit tell a node and, bubbling, its ancestors. */
    method Tell(begin: bool, path: Path, editRoot: bool, bubble: bool)
      modifies this`events
      ensures events == old(events) + Told(Call(begin, path, editRoot, bubble))
    {
      TellStarts(events, begin, path, editRoot, bubble);
      hide *;
      var at := path;
      events := events + [Event(begin, at, editRoot)];
      while at != [] && bubble
        invariant events + Rest(begin, at, bubble) == old(events) + Told(Call(begin, path, editRoot, bubble))
        decreases |at|
      {
        TellNext(events, begin, at);
        at := at[..|at| - 1];
        events := events + [Event(begin, at, false)];
      }
      TellEnds(events, begin, at, bubble);
    }

    method BeginEdit(path: Path, editRoot: bool, bubble: bool)
      requires Valid()
      modifies this
      ensures Valid() && calls == old(calls) + [Call(true, path, editRoot, bubble)]
      ensures Mark() == Marked(old(Mark()), Call(true, path, editRoot, bubble))
    {
      ghost var c := Call(true, path, editRoot, bubble);
      OneMoreCall(calls, c);
      hide Told, ToldAll, Open, RootCalls, EnteredPaths;
      Tell(true, path, editRoot, bubble);
      calls, open := calls + [c], open + [c];
    }

    method EndEdit(path: Path, editRoot: bool, bubble: bool)
      requires Valid() && Mark().open != []
      requires Mark().open[|Mark().open| - 1] == Call(true, path, editRoot, bubble)
      modifies this
      ensures Valid() && calls == old(calls) + [Call(false, path, editRoot, bubble)]
      ensures Mark() == Marked(old(Mark()), Call(false, path, editRoot, bubble))
    {
      ghost var c := Call(false, path, editRoot, bubble);
      OneMoreCall(calls, c);
      hide Told, ToldAll, Open, RootCalls, EnteredPaths;
      Tell(false, path, editRoot, bubble);
      calls, open := calls + [c], open[..|open| - 1];
    }
  }

  /** What is still to be told once the node at `at` has been. */
  ghost function Rest(begin: bool, at: Path, bubble: bool): seq<Event> {
    if bubble then Ancestors(begin, at) else []
  }

  lemma TellStarts(events: seq<Event>, begin: bool, path: Path, editRoot: bool, bubble: bool)
    ensures events + [Event(begin, path, editRoot)] + Rest(begin, path, bubble)
         == events + Told(Call(begin, path, editRoot, bubble))
  {
  }

  lemma TellNext(events: seq<Event>, begin: bool, at: Path)
    requires at != []
    ensures events + [Event(begin, at[..|at| - 1], false)] + Rest(begin, at[..|at| - 1], true)
            == events + Rest(begin, at, true)
  {
  }

  lemma TellEnds(events: seq<Event>, begin: bool, at: Path, bubble: bool)
    requires !(at != [] && bubble)
    ensures events + Rest(begin, at, bubble) == events
  {
  }

  lemma OneMoreCall(calls: seq<Call>, c: Call)
    ensures ToldAll(calls + [c]) == ToldAll(calls) + Told(c)
    ensures Open(calls).Some? && c.begin ==> Open(calls + [c]) == Some(Open(calls).value + [c])
    ensures Open(calls).Some? && !c.begin && Open(calls).value != []
            && Open(calls).value[|Open(calls).value| - 1] == c.(begin := true) ==>
              Open(calls + [c]) == Some(Open(calls).value[..|Open(calls).value| - 1])
    ensures RootCalls(calls + [c]) == RootCalls(calls) + if c.editRoot then [c] else []
    ensures EnteredPaths(calls + [c]) == EnteredPaths(calls) + if Entering(c) then multiset{c.path} else multiset{}
  {
    assert (calls + [c])[..|calls|] == calls;
  }

  /** How many nodes are told that they are the root of an edit is how many calls are for one. */
  lemma {:induction false} RootsAre(calls: seq<Call>, begin: bool)
    ensures Roots(ToldAll(calls), begin) == RootCount(RootCalls(calls), begin)
  {
    if calls != [] {
      var n := |calls| - 1;
      RootsAre(calls[..n], begin);
      RootsAppend(ToldAll(calls[..n]), Told(calls[n]), begin);
      ToldRoots(calls[n], begin);
      var some := RootCalls(calls[..n]);
      assert (some + [calls[n]])[..|some|] == some && some + [] == some;
    }
  }

  ghost function RootCount(calls: seq<Call>, begin: bool): nat {
    if calls == [] then 0 else
      RootCount(calls[..|calls| - 1], begin) + if calls[|calls| - 1].begin == begin then 1 else 0
  }
}
