/** Two texts: one that the resolver gets wrong, and one with a circular grouping that it gets right. */
module ResolverExamples {
  import opened SchemaText
  import opened DefinitionArena
  import opened ResolverRun
  import opened ResolverState
  import opened ResolverGraph

  lemma LaidOne(a: seq<Cell>, lo: Ref, d: Def)
    requires LaidOut(a, lo, d) && lo + Size(d) <= |a|
    ensures LaidOutAll(a, lo, [d]) && Refs(lo, [d]) == [lo] && At(lo, [d], 1) == lo + Size(d)
  {
    assert At(lo, [d], 0) == lo && At(lo, [d], 1) == lo + Size(d);
  }

  lemma LaidTwo(a: seq<Cell>, lo: Ref, d: Def, e: Def)
    requires LaidOut(a, lo, d) && LaidOut(a, lo + Size(d), e) && lo + Size(d) + Size(e) <= |a|
    ensures LaidOutAll(a, lo, [d, e]) && Refs(lo, [d, e]) == [lo, lo + Size(d)]
            && At(lo, [d, e], 2) == lo + Size(d) + Size(e)
  {
    assert At(lo, [d, e], 0) == lo && At(lo, [d, e], 1) == lo + Size(d) && At(lo, [d, e], 2) == lo + Size(d) + Size(e);
  }

  // ---------- a `uses` that two different lists meet ----------

  const A := [Uses(3, "b"), Leaf("x")]
  const B := [Leaf("z")]

  /** The second container has one leaf more than the first one. */
  const SPOILED := Text(
    [Node(ContainerKind, "c1", [Uses(1, "a")]), Node(ContainerKind, "c2", [Uses(2, "a"), Leaf("y")])],
    map["a" := A, "b" := B])

  const ROOT: Ref := 3

  /** Groupings `a` and `b`, then the module. */
  const START := [
    UsesCell(3, "b"), LeafCell("x"), LeafCell("z"),
    NodeCell(ModuleKind, "m", [4, 6], false),
    NodeCell(ContainerKind, "c1", [5], false), UsesCell(1, "a"),
    NodeCell(ContainerKind, "c2", [7, 8], false), UsesCell(2, "a"), LeafCell("y")]

  const SPOILED_CONFIG := Config(SPOILED, map["a" := 0, "b" := 2], 3)

  lemma SpoiledStart()
    ensures var s := State(START, map[], map[], []);
            Sane(SPOILED_CONFIG, s) && Initial(SPOILED_CONFIG, s, ROOT, ModuleKind, "m")
  {
    SpoiledGroupings();
    SpoiledModule();
    hide LaidOut, LaidOutAll, GroupingsIntact, NamesDiffer;
  }

  lemma SpoiledGroupings()
    ensures GroupingsIntact(SPOILED_CONFIG, START)
  {
    LaidTwo(START, 0, A[0], A[1]);
    LaidOne(START, 2, B[0]);
    hide LaidOutAll;
  }

  lemma SpoiledModule()
    ensures LaidOut(START, ROOT, Module(SPOILED))
  {
    LaidOne(START, 5, Uses(1, "a"));
    LaidTwo(START, 7, Uses(2, "a"), Leaf("y"));
    hide LaidOutAll;
    LaidTwo(START, 4, SPOILED.main[0], SPOILED.main[1]);
  }

  lemma ClonesA(m: Memory, m': Memory, x: Ref, id: nat)
    requires Clones(SPOILED, m, m', x, id, "a")
    ensures m' == m.(arena := m.arena + [UsesCell(3, "b"), LeafCell("x")], inProgress := m.inProgress[id := x])
    ensures Refs(|m.arena|, A) == [|m.arena|, |m.arena| + 1]
  {
    var n := |m.arena|;
    assert At(n, A, 0) == n && At(n, A, 1) == n + 1 && At(n, A, 2) == n + 2;
    assert LaidOut(m'.arena, At(n, A, 0), A[0]) && LaidOut(m'.arena, At(n, A, 1), A[1]);
    assert m'.arena == m.arena + [UsesCell(3, "b"), LeafCell("x")];
  }

  lemma ClonesB(m: Memory, m': Memory, x: Ref, id: nat)
    requires Clones(SPOILED, m, m', x, id, "b")
    ensures m' == m.(arena := m.arena + [LeafCell("z")], inProgress := m.inProgress[id := x])
    ensures Refs(|m.arena|, B) == [|m.arena|]
  {
    var n := |m.arena|;
    assert At(n, B, 0) == n && At(n, B, 1) == n + 1;
    assert LaidOut(m'.arena, At(n, B, 0), B[0]);
    assert m'.arena == m.arena + [LeafCell("z")];
  }

  /** The first container gets all it should. */
  lemma FirstContainer(m: Memory, m': Memory, out: Outcome)
    requires |m.arena| == 9 && m.arena[4] == NodeCell(ContainerKind, "c1", [], false) && m.arena[5] == UsesCell(1, "a")
    requires m.inProgress == map[] && m.recursives == [] && Adds(SPOILED, m, 4, [5], m', out)
    ensures out.Done? && m'.inProgress == map[1 := 4, 3 := 4] && m'.recursives == []
    ensures m'.arena == m.arena[4 := NodeCell(ContainerKind, "c1", [11, 10], false)]
                        + [UsesCell(3, "b"), LeafCell("x"), LeafCell("z")]
  {
    hide Adds, AddsOne, Clones;
    assert [5] + [] == [5];
    var m1, m2, o := AddsCloned(SPOILED, m, 4, 5, [], m', out);
    ClonesA(m, m1, 4, 1);
    FirstClones(m1, m2, o);
    AddsEnd(SPOILED, m2, 4, m', out);
    assert m'.arena == m.arena[4 := NodeCell(ContainerKind, "c1", [11, 10], false)]
                       + [UsesCell(3, "b"), LeafCell("x"), LeafCell("z")];
  }

  lemma FirstClones(m: Memory, m': Memory, out: Outcome)
    requires |m.arena| == 11 && m.arena[4] == NodeCell(ContainerKind, "c1", [], false)
    requires m.arena[9] == UsesCell(3, "b") && m.arena[10] == LeafCell("x")
    requires m.inProgress == map[1 := 4] && m.recursives == [] && Adds(SPOILED, m, 4, [9, 10], m', out)
    ensures out.Done? && m'.inProgress == map[1 := 4, 3 := 4] && m'.recursives == []
    ensures m'.arena == m.arena[4 := NodeCell(ContainerKind, "c1", [11, 10], false)] + [LeafCell("z")]
  {
    hide Adds, AddsOne, Clones;
    assert [9] + [10] == [9, 10];
    var m3, m4, o := AddsCloned(SPOILED, m, 4, 9, [10], m', out);
    ClonesB(m, m3, 4, 3);
    assert [11] + [] == [11];
    AddsLeaf(SPOILED, m3, 4, 11, [], m4, o);
    AddsEnd(SPOILED, Append(m3, 4, 11), 4, m4, o);
    assert [10] + [] == [10];
    AddsLeaf(SPOILED, m4, 4, 10, [], m', out);
    AddsEnd(SPOILED, Append(m4, 4, 10), 4, m', out);
    assert [] + [11] == [11] && [11] + [10] == [11, 10];
    assert m'.arena == m.arena[4 := NodeCell(ContainerKind, "c1", [11, 10], false)] + [LeafCell("z")];
  }

  /** The second one gets nothing of its grouping, as what is left of the grouping is dropped with the shared `uses`. */
  lemma SecondContainer(m: Memory, m': Memory, out: Outcome)
    requires |m.arena| == 12 && m.arena[6] == NodeCell(ContainerKind, "c2", [], false)
    requires m.arena[7] == UsesCell(2, "a") && m.arena[8] == LeafCell("y")
    requires m.inProgress == map[1 := 4, 3 := 4] && m.recursives == [] && Adds(SPOILED, m, 6, [7, 8], m', out)
    ensures out.Done? && m'.recursives == [(4, 6)]
    ensures m'.arena == m.arena[6 := NodeCell(ContainerKind, "c2", [8], false)] + [UsesCell(3, "b"), LeafCell("x")]
  {
    hide Adds, AddsOne, Clones;
    assert [7] + [8] == [7, 8];
    var m1, m2, o := AddsCloned(SPOILED, m, 6, 7, [8], m', out);
    ClonesA(m, m1, 6, 2);
    assert [12] + [13] == [12, 13];
    AddsShared(SPOILED, m1, 6, 12, [13], m2, o);
    assert [8] + [] == [8];
    AddsLeaf(SPOILED, m2, 6, 8, [], m', out);
    AddsEnd(SPOILED, Append(m2, 6, 8), 6, m', out);
    assert [] + [8] == [8];
    assert m'.arena == m.arena[6 := NodeCell(ContainerKind, "c2", [8], false)] + [UsesCell(3, "b"), LeafCell("x")];
  }

  const FINAL := [
    UsesCell(3, "b"), LeafCell("x"), LeafCell("z"),
    NodeCell(ModuleKind, "m", [4, 6], false),
    NodeCell(ContainerKind, "c1", [11, 10], false), UsesCell(1, "a"),
    NodeCell(ContainerKind, "c2", [11, 10], true), UsesCell(2, "a"), LeafCell("y"),
    UsesCell(3, "b"), LeafCell("x"), LeafCell("z"), UsesCell(3, "b"), LeafCell("x")]

  /** Every run ends without an error, and the children of `c2` are those of `c1`. */
  lemma SpoiledRun(m': Memory, out: Outcome)
    requires Resolves(SPOILED, Memory(START, map[], []), ROOT, m', out)
    ensures out.Done? && m'.arena == FINAL
  {
    hide Adds, Fills;
    var m := Memory(START, map[], []);
    assert m.arena[ROOT].defs == [4, 6];
    var m1, o :| Adds(SPOILED, Pop(m, ROOT), ROOT, m.arena[ROOT].defs, m1, o)
                 && if o.Done? then m' == m1.(arena := m'.arena) && Fills(m1.arena, m1.recursives, m'.arena, out.Done?)
                    else m' == m1 && out == o;
    SpoiledAdds(m1, o);
    hide START, Pop, Resolves;
    FillsFinal(m1.arena, m'.arena, out.Done?);
  }

  lemma FillsFinal(a: seq<Cell>, a': seq<Cell>, done: bool)
    requires a == FINAL[6 := NodeCell(ContainerKind, "c2", [8], false)] && Fills(a, [(4, 6)], a', done)
    ensures done && a' == FINAL
  {
    hide Fills;
    assert CellName(a[11]) != CellName(a[10]) && a[4].defs == [11, 10];
    FillsOne(a, (4, 6), a', done);
  }

  lemma FillsOne(a: seq<Cell>, pair: (Ref, Ref), a': seq<Cell>, done: bool)
    requires Fills(a, [pair], a', done) && Fillable(a, pair) && Fits(a, pair)
    ensures done && a' == Fill(a, pair)
  {
    assert [pair][1..] == [];
  }

  lemma SpoiledAdds(m': Memory, out: Outcome)
    requires Adds(SPOILED, Pop(Memory(START, map[], []), ROOT), ROOT, [4, 6], m', out)
    ensures out.Done? && m'.recursives == [(4, 6)]
    ensures m'.arena == FINAL[6 := NodeCell(ContainerKind, "c2", [8], false)]
  {
    hide Adds, AddsOne, Clones;
    var m := Pop(Memory(START, map[], []), ROOT);
    assert [4] + [6] == [4, 6];
    var m1, o1 := AddsNode(SPOILED, m, ROOT, 4, [6], m', out);
    assert [] + [4] == [4] && START[4].defs == [5];
    FirstContainer(Pop(Append(m, ROOT, 4), 4), m1, o1);
    SpoiledRest(m1, m', out);
  }

  lemma SpoiledRest(m: Memory, m': Memory, out: Outcome)
    requires m.arena == FINAL[..12][3 := NodeCell(ModuleKind, "m", [4], false)][6 := START[6]]
    requires m.inProgress == map[1 := 4, 3 := 4] && m.recursives == [] && Adds(SPOILED, m, ROOT, [6], m', out)
    ensures out.Done? && m'.recursives == [(4, 6)]
    ensures m'.arena == FINAL[6 := NodeCell(ContainerKind, "c2", [8], false)]
  {
    hide Adds, AddsOne, Clones;
    assert [6] + [] == [6] && [4] + [6] == [4, 6];
    var m2, o2 := AddsNode(SPOILED, m, ROOT, 6, [], m', out);
    SecondContainer(Pop(Append(m, ROOT, 6), 6), m2, o2);
    AddsEnd(SPOILED, m2, ROOT, m', out);
  }

  ghost function Module(t: Text): Def {
    Node(ModuleKind, "m", t.main)
  }

  /** The flattened lists of one and of two definitions. */
  lemma FlatOne(t: Text, d: Def, n: nat)
    ensures FlattenIn(t, [d], n) == FlattenOne(t, d, n) && MetIn(t, [d], n) == MetOne(t, d, n)
    ensures UsesKnownIn(t, [d], n) <==> KnownOne(t, d, n)
  {
    assert [d][..0] == [];
    assert FlattenIn(t, [d], n) == [] + FlattenOne(t, d, n) && MetIn(t, [d], n) == [] + MetOne(t, d, n);
    if UsesKnownIn(t, [d], n) {
      assert KnownOne(t, [d][0], n);
    }
  }

  lemma FlatTwo(t: Text, d: Def, e: Def, n: nat)
    ensures FlattenIn(t, [d, e], n) == FlattenOne(t, d, n) + FlattenOne(t, e, n)
    ensures MetIn(t, [d, e], n) == MetOne(t, d, n) + MetOne(t, e, n)
    ensures UsesKnownIn(t, [d, e], n) <==> KnownOne(t, d, n) && KnownOne(t, e, n)
  {
    assert [d, e][..1] == [d];
    FlatOne(t, d, n);
    if UsesKnownIn(t, [d, e], n) {
      assert KnownOne(t, [d, e][0], n) && KnownOne(t, [d, e][1], n);
    }
  }

  lemma FlatContainers()
    ensures Flatten(SPOILED, [Uses(1, "a")]) == [Leaf("z"), Leaf("x")] && Met(SPOILED, [Uses(1, "a")]) == [1, 3]
    ensures Flatten(SPOILED, [Uses(2, "a"), Leaf("y")]) == [Leaf("z"), Leaf("x"), Leaf("y")]
    ensures Met(SPOILED, [Uses(2, "a"), Leaf("y")]) == [2, 3]
    ensures UsesKnown(SPOILED, [Uses(1, "a")]) && UsesKnown(SPOILED, [Uses(2, "a"), Leaf("y")])
  {
    assert |SPOILED.groups| == 2;
    FlatOne(SPOILED, Leaf("z"), 0);
    FlatTwo(SPOILED, Uses(3, "b"), Leaf("x"), 1);
    FlatOne(SPOILED, Uses(1, "a"), 2);
    FlatTwo(SPOILED, Uses(2, "a"), Leaf("y"), 2);
    hide FlattenIn, MetIn, UsesKnownIn;
  }

  /** Nothing is wrong with the text. */
  lemma SpoiledIsSound()
    ensures AlwaysSound(SPOILED, SPOILED.main)
  {
    FlatContainers();
    FlatMain();
    var c1, c2 := SPOILED.main[0].body, SPOILED.main[1].body;
    hide Flatten, UsesKnown;
    FlatSound(SPOILED, c1);
    FlatSound(SPOILED, c2);
    MainSound(SPOILED, SPOILED.main);
  }

  lemma FlatMain()
    ensures Flatten(SPOILED, SPOILED.main) == SPOILED.main && UsesKnown(SPOILED, SPOILED.main)
  {
    assert |SPOILED.groups| == 2;
    FlatTwo(SPOILED, SPOILED.main[0], SPOILED.main[1], 2);
    hide FlattenIn, UsesKnownIn;
  }

  lemma FlatSound(t: Text, l: seq<Def>)
    requires UsesKnown(t, l) && DistinctNames(Flatten(t, l))
    requires forall i :: 0 <= i < |Flatten(t, l)| ==> !Flatten(t, l)[i].Node?
    ensures AlwaysSound(t, l)
  {
    hide Flatten, UsesKnown, DistinctNames;
  }

  lemma MainSound(t: Text, l: seq<Def>)
    requires UsesKnown(t, l) && DistinctNames(Flatten(t, l))
    requires forall i :: 0 <= i < |Flatten(t, l)| && Flatten(t, l)[i].Node? ==> AlwaysSound(t, Flatten(t, l)[i].body)
    ensures AlwaysSound(t, l)
  {
    hide Flatten, UsesKnown, DistinctNames;
    forall n: nat ensures Sound(t, l, n) {
      var f := Flatten(t, l);
      forall i | 0 <= i < |f| && f[i].Node? && n > 0 ensures Sound(t, f[i].body, n - 1) {
        assert AlwaysSound(t, f[i].body);
      }
    }
  }

  /**
    The resolver reports success for it, but `c2` has lost its leaf `y`: two lists that differ meet the `uses` of
    grouping `b`, so the text is not clean.
  */
  lemma SpoiledIsWrong(m': Memory, out: Outcome)
    requires Resolves(SPOILED, Memory(START, map[], []), ROOT, m', out)
    ensures var s := State(START, map[], map[], []);
            Sane(SPOILED_CONFIG, s) && Initial(SPOILED_CONFIG, s, ROOT, ModuleKind, "m")
    ensures !Clean(SPOILED) && AlwaysSound(SPOILED, SPOILED.main)
    ensures out.Done? && Linked(m'.arena) && ROOT < |m'.arena|
            && Unfold(m'.arena, ROOT, 2) != ExpandOne(SPOILED, Module(SPOILED), 2)
  {
    SpoiledRun(m', out);
    SpoiledIsSound();
    SpoiledIsNotClean();
    SpoiledStart();
    hide *;
    LeafIsLost();
  }

  lemma LeafIsLost()
    ensures Linked(FINAL) && ROOT < |FINAL| && Unfold(FINAL, ROOT, 2) != ExpandOne(SPOILED, Module(SPOILED), 2)
  {
    assert Linked(FINAL) && |FINAL| == 14 && FINAL[ROOT].defs == [4, 6] && FINAL[6].defs == [11, 10];
    assert FINAL[ROOT].NodeCell? && FINAL[6].NodeCell?;
    hide *;
    UnfoldedKids(FINAL, ROOT, 2, 1);
    UnfoldedKids(FINAL, 6, 1, 0);
    ExpandedKids();
  }

  lemma UnfoldedKids(a: seq<Cell>, r: Ref, n: nat, i: nat)
    requires Linked(a) && r < |a| && a[r].NodeCell? && n > 0 && i < |a[r].defs|
    ensures var u := Unfold(a, r, n);
            u.NodeTree? && |u.kids| == |a[r].defs| && u.kids[i] == Unfold(a, a[r].defs[i], n - 1)
  {
  }

  lemma ExpandedKids()
    ensures var e := ExpandOne(SPOILED, Module(SPOILED), 2);
            e.NodeTree? && |e.kids| == 2 && e.kids[1].NodeTree? && |e.kids[1].kids| == 3
  {
    assert |SPOILED.groups| == 2;
    FlatTwo(SPOILED, SPOILED.main[0], SPOILED.main[1], 2);
    assert Flatten(SPOILED, SPOILED.main) == SPOILED.main;
    FlatContainers();
    hide Flatten;
  }

  lemma SpoiledIsNotClean()
    ensures !Clean(SPOILED)
  {
    var c1, c2 := SPOILED.main[0].body, SPOILED.main[1].body;
    FlatContainers();
    SpoiledMain();
    ReachedChild(SPOILED, SPOILED.main, 0);
    ReachedChild(SPOILED, SPOILED.main, 1);
    hide Met, Flatten, Reached;
    assert 3 in Met(SPOILED, c1) && 3 in Met(SPOILED, c2) && |c1| != |c2|;
    assert Common(SPOILED, c1, c2) && !Alike(SPOILED, c1, c2);
  }

  lemma SpoiledMain()
    ensures Flatten(SPOILED, SPOILED.main) == SPOILED.main
  {
    assert |SPOILED.groups| == 2;
    FlatTwo(SPOILED, SPOILED.main[0], SPOILED.main[1], 2);
  }

  // ---------- a circular grouping ----------

  const SUB := Node(ContainerKind, "sub", [Uses(2, "g")])
  const G := [Leaf("v"), SUB]

  /** Grouping `g` contains itself below `sub`, and grouping `a` uses it directly. */
  const CIRCULAR := Text([Node(ContainerKind, "top", [Uses(1, "a")])], map["a" := [Uses(3, "g")], "g" := G])

  const TOP := [Uses(1, "a")]
  const INNER := [Uses(2, "g")]

  const CIRCULAR_CONFIG := Config(CIRCULAR, map["a" := 0, "g" := 1], 4)

  const CIRCULAR_START := State([
    UsesCell(3, "g"), LeafCell("v"), NodeCell(ContainerKind, "sub", [3], false), UsesCell(2, "g"),
    NodeCell(ModuleKind, "m", [5], false), NodeCell(ContainerKind, "top", [6], false), UsesCell(1, "a")],
    map[], map[], [])

  lemma CircularFlat()
    ensures Met(CIRCULAR, CIRCULAR.main) == [] && Met(CIRCULAR, TOP) == [1, 3] && Met(CIRCULAR, INNER) == [2]
    ensures Flatten(CIRCULAR, CIRCULAR.main) == CIRCULAR.main
    ensures Flatten(CIRCULAR, TOP) == G && Flatten(CIRCULAR, INNER) == G
    ensures UsesKnown(CIRCULAR, CIRCULAR.main) && UsesKnown(CIRCULAR, TOP) && UsesKnown(CIRCULAR, INNER)
  {
    assert |CIRCULAR.groups| == 2;
    FlatOne(CIRCULAR, CIRCULAR.main[0], 2);
    FlatTwo(CIRCULAR, Leaf("v"), SUB, 0);
    FlatTwo(CIRCULAR, Leaf("v"), SUB, 1);
    FlatOne(CIRCULAR, Uses(3, "g"), 1);
    FlatOne(CIRCULAR, Uses(1, "a"), 2);
    FlatOne(CIRCULAR, Uses(2, "g"), 2);
    hide FlattenIn, MetIn, UsesKnownIn;
  }

  lemma CircularLists(l: seq<Def>)
    requires Reached(CIRCULAR, l)
    ensures l == CIRCULAR.main || l == TOP || l == INNER
  {
    CircularFlat();
    hide Flatten, Met, UsesKnown;
    if l != CIRCULAR.main {
      var n: nat :| BelowIn(CIRCULAR, l, CIRCULAR.main, n);
      BelowStays(CIRCULAR, l, CIRCULAR.main, n, {CIRCULAR.main, TOP, INNER});
    }
  }

  lemma CircularSettles()
    ensures forall g :: g in CIRCULAR.groups ==> Settles(CIRCULAR, CIRCULAR.groups[g], |CIRCULAR.groups| - 1)
  {
    assert |CIRCULAR.groups| == 2;
  }

  lemma CircularIsClean()
    ensures Clean(CIRCULAR) && OneList(CIRCULAR)
  {
    CircularSettles();
    CircularFlat();
    hide Met, Reached, Settles, Flatten, UsesKnown;
    forall l: seq<Def>, m: seq<Def> | Reached(CIRCULAR, l) && Reached(CIRCULAR, m) && Common(CIRCULAR, l, m)
      ensures l == m
    {
      CircularLists(l);
      CircularLists(m);
    }
    forall l: seq<Def> | Reached(CIRCULAR, l) ensures Distinct(Met(CIRCULAR, l)) {
      CircularLists(l);
    }
  }

  lemma {:induction false} CircularSound(l: seq<Def>, n: nat)
    requires l == CIRCULAR.main || l == TOP || l == INNER
    ensures Sound(CIRCULAR, l, n)
    decreases n
  {
    CircularFlat();
    hide Flatten, UsesKnown;
    var f := Flatten(CIRCULAR, l);
    if n > 0 {
      forall i | 0 <= i < |f| && f[i].Node? ensures Sound(CIRCULAR, f[i].body, n - 1) {
        CircularSound(f[i].body, n - 1);
      }
    }
  }

  lemma CircularStart()
    ensures Sane(CIRCULAR_CONFIG, CIRCULAR_START) && Initial(CIRCULAR_CONFIG, CIRCULAR_START, 4, ModuleKind, "m")
  {
    CircularGroupings();
    CircularModule();
    hide LaidOut, LaidOutAll, GroupingsIntact, NamesDiffer;
  }

  lemma CircularGroupings()
    ensures GroupingsIntact(CIRCULAR_CONFIG, CIRCULAR_START.arena)
  {
    var a := CIRCULAR_START.arena;
    LaidOne(a, 0, Uses(3, "g"));
    LaidOne(a, 3, Uses(2, "g"));
    hide LaidOutAll;
    LaidTwo(a, 1, Leaf("v"), SUB);
  }

  lemma CircularModule()
    ensures LaidOut(CIRCULAR_START.arena, 4, Module(CIRCULAR))
  {
    LaidOne(CIRCULAR_START.arena, 6, Uses(1, "a"));
    hide LaidOutAll;
    LaidOne(CIRCULAR_START.arena, 5, CIRCULAR.main[0]);
  }

  /** The main theorem speaks of circular groupings: this text meets all of its conditions. */
  lemma CircularIsCovered()
    ensures Clean(CIRCULAR) && AlwaysSound(CIRCULAR, CIRCULAR.main)
    ensures Sane(CIRCULAR_CONFIG, CIRCULAR_START) && Initial(CIRCULAR_CONFIG, CIRCULAR_START, 4, ModuleKind, "m")
  {
    CircularIsClean();
    forall n: nat ensures Sound(CIRCULAR, CIRCULAR.main, n) {
      CircularSound(CIRCULAR.main, n);
    }
    CircularStart();
  }

  // ---------- a nested grouping used twice ----------

  /** As the text that comes out wrong, but without the leaf that only one container has. */
  const NESTED := Text(
    [Node(ContainerKind, "c1", [Uses(1, "a")]), Node(ContainerKind, "c2", [Uses(2, "a")])],
    map["a" := A, "b" := B])

  const FIRST := [Uses(1, "a")]
  const SECOND := [Uses(2, "a")]

  lemma NestedFlat()
    ensures Flatten(NESTED, NESTED.main) == NESTED.main && Met(NESTED, NESTED.main) == []
    ensures Flatten(NESTED, FIRST) == [Leaf("z"), Leaf("x")] == Flatten(NESTED, SECOND)
    ensures Met(NESTED, FIRST) == [1, 3] && Met(NESTED, SECOND) == [2, 3]
    ensures UsesKnown(NESTED, FIRST) && UsesKnown(NESTED, SECOND)
  {
    hide FlattenIn, MetIn, UsesKnownIn;
    assert |NESTED.groups| == 2;
    FlatTwo(NESTED, NESTED.main[0], NESTED.main[1], 2);
    GroupsFlat();
    FlatOne(NESTED, Uses(1, "a"), 2);
    FlatOne(NESTED, Uses(2, "a"), 2);
  }

  lemma GroupsFlat()
    ensures FlattenIn(NESTED, NESTED.groups["a"], 1) == [Leaf("z"), Leaf("x")]
    ensures MetIn(NESTED, NESTED.groups["a"], 1) == [3] && UsesKnownIn(NESTED, NESTED.groups["a"], 1)
  {
    hide FlattenIn, MetIn, UsesKnownIn;
    FlatOne(NESTED, Leaf("z"), 0);
    FlatTwo(NESTED, Uses(3, "b"), Leaf("x"), 1);
  }

  lemma NestedLists(l: seq<Def>)
    requires Reached(NESTED, l)
    ensures l == NESTED.main || l == FIRST || l == SECOND
  {
    NestedFlat();
    hide Flatten, Met, UsesKnown;
    if l != NESTED.main {
      var n: nat :| BelowIn(NESTED, l, NESTED.main, n);
      BelowStays(NESTED, l, NESTED.main, n, {NESTED.main, FIRST, SECOND});
    }
  }

  lemma {:induction false} NothingBelow(t: Text, k: seq<Def>, l: seq<Def>, n: nat)
    requires forall i :: 0 <= i < |Flatten(t, l)| ==> !Flatten(t, l)[i].Node?
    ensures !BelowIn(t, k, l, n)
    decreases n
  {
    if n > 0 {
      forall j: seq<Def> | ChildOf(t, k, j) ensures j != l && !BelowIn(t, j, l, n - 1) {
        NothingBelow(t, j, l, n - 1);
      }
    }
  }

  lemma LeafsOnlyOnce(t: Text, l: seq<Def>)
    requires forall i :: 0 <= i < |Flatten(t, l)| ==> !Flatten(t, l)[i].Node?
    ensures Once(t, l)
  {
    forall k: seq<Def> ensures !Below(t, k, l) {
      forall n: nat ensures !BelowIn(t, k, l, n) {
        NothingBelow(t, k, l, n);
      }
    }
  }

  lemma NestedSettles()
    ensures forall g :: g in NESTED.groups ==> Settles(NESTED, NESTED.groups[g], |NESTED.groups| - 1)
  {
    assert |NESTED.groups| == 2;
  }

  /** It is clean, although two lists meet the `uses` in grouping `a`: they mean the same. */
  lemma NestedIsClean()
    ensures Clean(NESTED) && !OneList(NESTED)
  {
    NestedSettles();
    NestedFlat();
    LeafsOnlyOnce(NESTED, FIRST);
    LeafsOnlyOnce(NESTED, SECOND);
    ReachedChild(NESTED, NESTED.main, 0);
    ReachedChild(NESTED, NESTED.main, 1);
    hide Met, Reached, Settles, Flatten, UsesKnown, Once;
    assert 3 in Met(NESTED, FIRST) && 3 in Met(NESTED, SECOND) && FIRST[0] != SECOND[0];
    assert Common(NESTED, FIRST, SECOND);
    forall l: seq<Def>, m: seq<Def> | Reached(NESTED, l) && Reached(NESTED, m) && Common(NESTED, l, m)
      ensures l == m || (Alike(NESTED, l, m) && Once(NESTED, l) && Once(NESTED, m))
    {
      NestedLists(l);
      NestedLists(m);
    }
    forall l: seq<Def> | Reached(NESTED, l) ensures Distinct(Met(NESTED, l)) {
      NestedLists(l);
    }
  }
}
