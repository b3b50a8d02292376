/**
  A text whose lists that meet the same `uses` all flatten to the same, and which the resolver gets wrong none the
  less: a container is shared from within, and becomes a duplicate itself after that.
*/
module ResolverPitfall {
  import opened SchemaText
  import opened DefinitionArena
  import opened ResolverRun
  import opened ResolverGraph
  import opened ResolverExamples

  const N1 := Node(ContainerKind, "n1", [Leaf("n2")])
  const N3 := Node(ContainerKind, "n3", [Uses(1, "g1")])
  const N4 := Node(ContainerKind, "n4", [Uses(2, "g1")])
  const G0 := [N1]
  const G1 := [N3, N4, Uses(3, "g0")]

  const LATE := Text([Uses(4, "g1")], map["g0" := G0, "g1" := G1])

  // ---------- what it means ----------

  lemma FlatThree(t: Text, d: Def, e: Def, f: Def, n: nat)
    ensures FlattenIn(t, [d, e, f], n) == FlattenOne(t, d, n) + FlattenOne(t, e, n) + FlattenOne(t, f, n)
    ensures MetIn(t, [d, e, f], n) == MetOne(t, d, n) + MetOne(t, e, n) + MetOne(t, f, n)
    ensures KnownOne(t, d, n) && KnownOne(t, e, n) && KnownOne(t, f, n) ==> UsesKnownIn(t, [d, e, f], n)
  {
    assert [d, e, f][..2] == [d, e];
    FlatTwo(t, d, e, n);
  }

  const MEANT := [N3, N4, N1]

  /** What one `uses` of `g1` stands for. */
  lemma FlatG1(u: nat)
    ensures FlattenOne(LATE, Uses(u, "g1"), 2) == MEANT && MetOne(LATE, Uses(u, "g1"), 2) == [u, 3]
    ensures KnownOne(LATE, Uses(u, "g1"), 2)
  {
    FlatOne(LATE, N1, 0);
    FlatThree(LATE, N3, N4, Uses(3, "g0"), 1);
    hide FlattenIn, MetIn, UsesKnownIn;
  }

  lemma FlatList(l: seq<Def>, u: nat)
    requires l == [Uses(u, "g1")]
    ensures Flatten(LATE, l) == MEANT && Met(LATE, l) == [u, 3] && UsesKnown(LATE, l)
  {
    assert |LATE.groups| == 2;
    FlatG1(u);
    FlatOne(LATE, Uses(u, "g1"), 2);
    hide FlattenIn, MetIn, UsesKnownIn, FlattenOne, MetOne, KnownOne;
  }

  lemma LateFlat()
    ensures Flatten(LATE, LATE.main) == MEANT && Met(LATE, LATE.main) == [4, 3] && UsesKnown(LATE, LATE.main)
    ensures Flatten(LATE, N3.body) == MEANT && Met(LATE, N3.body) == [1, 3] && UsesKnown(LATE, N3.body)
    ensures Flatten(LATE, N4.body) == MEANT && Met(LATE, N4.body) == [2, 3] && UsesKnown(LATE, N4.body)
    ensures Flatten(LATE, N1.body) == [Leaf("n2")] && Met(LATE, N1.body) == [] && UsesKnown(LATE, N1.body)
  {
    assert |LATE.groups| == 2;
    FlatOne(LATE, Leaf("n2"), 2);
    hide FlattenIn, MetIn, UsesKnownIn;
    FlatList(LATE.main, 4);
    FlatList(N3.body, 1);
    FlatList(N4.body, 2);
  }

  ghost predicate OneOfLists(l: seq<Def>) {
    l == LATE.main || l == N3.body || l == N4.body || l == N1.body
  }

  lemma LateLists(l: seq<Def>)
    requires Reached(LATE, l)
    ensures OneOfLists(l)
  {
    LateFlat();
    hide Flatten, Met, UsesKnown;
    if l != LATE.main {
      var n: nat :| BelowIn(LATE, l, LATE.main, n);
      BelowStays(LATE, l, LATE.main, n, {LATE.main, N3.body, N4.body, N1.body});
    }
  }

  lemma {:induction false} LateSound(l: seq<Def>, n: nat)
    requires OneOfLists(l)
    ensures Sound(LATE, l, n)
    decreases n
  {
    LateFlat();
    hide Flatten, UsesKnown, Met;
    var f := Flatten(LATE, l);
    if n > 0 {
      forall i | 0 <= i < |f| && f[i].Node? ensures Sound(LATE, f[i].body, n - 1) {
        LateSound(f[i].body, n - 1);
      }
    }
  }

  /** Nothing is wrong with the text; lists that meet the same `uses` mean the same, but meet it again below. */
  lemma LateFacts()
    ensures AlwaysSound(LATE, LATE.main) && !Clean(LATE)
    ensures forall l: seq<Def>, m: seq<Def> :: Reached(LATE, l) && Reached(LATE, m) && Common(LATE, l, m) ==>
              Alike(LATE, l, m)
    ensures forall l: seq<Def> :: Reached(LATE, l) ==> Distinct(Met(LATE, l))
  {
    LateNotClean();
    LateFlat();
    forall n: nat ensures Sound(LATE, LATE.main, n) {
      LateSound(LATE.main, n);
    }
    hide Flatten, Met, Reached, UsesKnown, Clean;
    forall l: seq<Def>, m: seq<Def> | Reached(LATE, l) && Reached(LATE, m) && Common(LATE, l, m)
      ensures Alike(LATE, l, m)
    {
      LateLists(l);
      LateLists(m);
    }
    forall l: seq<Def> | Reached(LATE, l) ensures Distinct(Met(LATE, l)) {
      LateLists(l);
    }
  }

  lemma LateNotClean()
    ensures !Clean(LATE)
  {
    LateFlat();
    ReachedChild(LATE, LATE.main, 0);
    ReachedChild(LATE, LATE.main, 1);
    assert ChildOf(LATE, N3.body, N3.body) by { assert Flatten(LATE, N3.body)[0] == N3; }
    BelowChild(LATE, N3.body, N3.body, N3.body);
    hide Flatten, Met, Reached, Below, Alike;
    assert 3 in Met(LATE, N3.body) && 3 in Met(LATE, N4.body);
    assert Common(LATE, N3.body, N4.body) && Common(LATE, N3.body, N3.body) && N3.body[0] != N4.body[0];
    assert !Once(LATE, N3.body);
  }

  // ---------- the run ----------

  function Cell1(defs: seq<Ref>): Cell { NodeCell(ContainerKind, "n1", defs, false) }

  function Cell3(defs: seq<Ref>): Cell { NodeCell(ContainerKind, "n3", defs, false) }

  function Cell4(defs: seq<Ref>): Cell { NodeCell(ContainerKind, "n4", defs, false) }

  function Copy0(n: Ref): seq<Cell> { [Cell1([n + 1]), LeafCell("n2")] }

  function Copy1(n: Ref): seq<Cell> {
    [Cell3([n + 1]), UsesCell(1, "g1"), Cell4([n + 3]), UsesCell(2, "g1"), UsesCell(3, "g0")]
  }

  const TOP: Ref := 7

  function Root(defs: seq<Ref>): Cell { NodeCell(ModuleKind, "m", defs, false) }

  function Begin(): seq<Cell> { Copy0(0) + Copy1(2) + [Root([8]), UsesCell(4, "g1")] }

  lemma OneAt(n: Ref, e: Def)
    ensures At(n, [e], 0) == n && At(n, [e], 1) == n + Size(e)
  {
    assert Offset([e], 0) == 0 && Offset([e], 1) == Offset([e], 0) + Size([e][0]);
  }

  lemma OneSize(d: Def, e: Def)
    requires d.Node? && d.body == [e] && !e.Node?
    ensures Size(d) == 2
  {
    OneAt(0, e);
  }

  lemma ThreeAt(n: Ref)
    ensures At(n, G1, 0) == n && At(n, G1, 1) == n + 2 && At(n, G1, 2) == n + 4 && At(n, G1, 3) == n + 5
    ensures Refs(n, G1) == [n, n + 2, n + 4]
  {
    OneSize(N3, Uses(1, "g1"));
    OneSize(N4, Uses(2, "g1"));
    assert Offset(G1, 0) == 0 && Offset(G1, 1) == Offset(G1, 0) + Size(G1[0]);
    assert Offset(G1, 2) == Offset(G1, 1) + Size(G1[1]) && Offset(G1, 3) == Offset(G1, 2) + Size(G1[2]);
  }

  lemma OneNodeLaid(a: seq<Cell>, n: Ref, d: Def, e: Def)
    requires d.Node? && d.body == [e] && !e.Node? && LaidOut(a, n, d)
    ensures Size(d) == 2 && n + 1 < |a| && a[n] == NodeCell(d.kind, d.ident, [n + 1], false)
    ensures LaidOut(a, n + 1, e)
  {
    OneAt(n + 1, e);
    assert Refs(n + 1, d.body) == [n + 1];
  }

  lemma Clones1(m: Memory, m': Memory, x: Ref, id: nat, n: Ref)
    requires Clones(LATE, m, m', x, id, "g1") && n == |m.arena|
    ensures m' == m.(arena := m.arena + Copy1(n), inProgress := m.inProgress[id := x])
    ensures Refs(n, G1) == [n, n + 2, n + 4]
  {
    ThreeAt(n);
    assert LaidOut(m'.arena, At(n, G1, 0), G1[0]) && LaidOut(m'.arena, At(n, G1, 1), G1[1]);
    assert LaidOut(m'.arena, At(n, G1, 2), G1[2]);
    OneNodeLaid(m'.arena, n, N3, Uses(1, "g1"));
    OneNodeLaid(m'.arena, n + 2, N4, Uses(2, "g1"));
    hide LaidOutAll;
    assert m'.arena == m.arena + Copy1(n);
  }

  lemma Clones0(m: Memory, m': Memory, x: Ref, id: nat, n: Ref)
    requires Clones(LATE, m, m', x, id, "g0") && n == |m.arena|
    ensures m' == m.(arena := m.arena + Copy0(n), inProgress := m.inProgress[id := x])
    ensures Refs(n, G0) == [n]
  {
    OneSize(N1, Leaf("n2"));
    OneAt(n, N1);
    assert Refs(n, G0) == [n];
    assert LaidOut(m'.arena, At(n, G0, 0), G0[0]);
    OneNodeLaid(m'.arena, n, N1, Leaf("n2"));
    hide LaidOutAll;
    assert m'.arena == m.arena + Copy0(n);
  }

  ghost predicate Has(m: Memory, a: seq<Cell>, registered: map<nat, Ref>, pairs: seq<(Ref, Ref)>) {
    m.arena == a && m.inProgress == registered && m.recursives == pairs
  }

  // The arena in between: all cells up to some number, of which those that are being worked on are given.

  /** Up to the copy that the module makes, with the definitions of the module and of the two containers in the copy. */
  function First(top: seq<Ref>, three: seq<Ref>, four: seq<Ref>): seq<Cell> {
    Copy0(0) + Copy1(2) + [Root(top), UsesCell(4, "g1")]
    + [Cell3(three), UsesCell(1, "g1"), Cell4(four), UsesCell(2, "g1"), UsesCell(3, "g0")]
  }

  /** The copy that the container of cell 9 makes, and that of the container of cell 16. */
  function Second(three: seq<Ref>, four: seq<Ref>): seq<Cell> {
    [Cell3(three), UsesCell(1, "g1"), Cell4(four), UsesCell(2, "g1"), UsesCell(3, "g0")]
  }

  /** Below cell 16: its two containers share, and it gets all it should. */
  lemma RunInner(a: seq<Cell>, m: Memory, m': Memory, out: Outcome)
    requires |a| == 16 && Has(m, a + [Cell4([]), UsesCell(2, "g1"), UsesCell(3, "g0")], map[4 := 7, 1 := 9], [(9, 14)])
    requires Adds(LATE, m, 16, [17], m', out)
    ensures out.Done?
    ensures Has(m', a + [Cell4([19, 21, 24]), UsesCell(2, "g1"), UsesCell(3, "g0")] + Second([], []) + Copy0(24),
                map[4 := 7, 1 := 9, 2 := 16, 3 := 16], [(9, 14), (9, 19), (16, 21)])
  {
    hide Adds, AddsOne, Clones;
    assert [17] + [] == [17];
    var m1, m2, o := AddsCloned(LATE, m, 16, 17, [], m', out);
    Clones1(m, m1, 16, 2, 19);
    RunInnerCopy(a, m1, m2, o);
    AddsEnd(LATE, m2, 16, m', out);
  }

  lemma RunInnerCopy(a: seq<Cell>, m: Memory, m': Memory, out: Outcome)
    requires |a| == 16
    requires Has(m, a + [Cell4([]), UsesCell(2, "g1"), UsesCell(3, "g0")] + Copy1(19),
                 map[4 := 7, 1 := 9, 2 := 16], [(9, 14)])
    requires Adds(LATE, m, 16, [19, 21, 23], m', out)
    ensures out.Done?
    ensures Has(m', a + [Cell4([19, 21, 24]), UsesCell(2, "g1"), UsesCell(3, "g0")] + Second([], []) + Copy0(24),
                map[4 := 7, 1 := 9, 2 := 16, 3 := 16], [(9, 14), (9, 19), (16, 21)])
  {
    hide Adds, AddsOne, Clones;
    assert [19] + [21, 23] == [19, 21, 23] && [21] + [23] == [21, 23] && [23] + [] == [23];
    assert [] + [19] == [19] && [19] + [21] == [19, 21];
    AddsDuplicate(LATE, m, 16, 19, 20, [21, 23], m', out);
    var p := Pop(Append(m, 16, 19), 19);
    var m1 := p.(recursives := p.recursives + [(9, 19)]);
    var rest := [UsesCell(2, "g1"), UsesCell(3, "g0")];
    assert m1.arena == a + [Cell4([19])] + rest + Second([], [22]);
    AddsDuplicate(LATE, m1, 16, 21, 22, [23], m', out);
    var q := Pop(Append(m1, 16, 21), 21);
    var m2 := q.(recursives := q.recursives + [(16, 21)]);
    assert m2.arena == a + [Cell4([19, 21])] + rest + Second([], []);
    RunInnerLast(a, m2, m', out);
  }

  lemma RunInnerLast(a: seq<Cell>, m: Memory, m': Memory, out: Outcome)
    requires |a| == 16
    requires Has(m, a + [Cell4([19, 21])] + [UsesCell(2, "g1"), UsesCell(3, "g0")] + Second([], []),
                 map[4 := 7, 1 := 9, 2 := 16], [(9, 14), (9, 19), (16, 21)])
    requires Adds(LATE, m, 16, [23], m', out)
    ensures out.Done?
    ensures Has(m', a + [Cell4([19, 21, 24]), UsesCell(2, "g1"), UsesCell(3, "g0")] + Second([], []) + Copy0(24),
                map[4 := 7, 1 := 9, 2 := 16, 3 := 16], [(9, 14), (9, 19), (16, 21)])
  {
    hide Adds, AddsOne, Clones;
    assert [23] + [] == [23] && [24] + [] == [24];
    assert [19, 21] + [24] == [19, 21, 24];
    var m1, m2, o := AddsCloned(LATE, m, 16, 23, [], m', out);
    Clones0(m, m1, 16, 3, 24);
    var m3, o3 := AddsNode(LATE, m1, 16, 24, [], m2, o);
    RunLeaf(Pop(Append(m1, 16, 24), 24), m3, o3);
    AddsEnd(LATE, m3, 16, m2, o);
    AddsEnd(LATE, m2, 16, m', out);
    assert m'.arena == a + [Cell4([19, 21, 24]), UsesCell(2, "g1"), UsesCell(3, "g0")] + Second([], []) + Copy0(24);
  }

  lemma RunLeaf(m: Memory, m': Memory, out: Outcome)
    requires |m.arena| == 26 && m.arena[24].NodeCell? && m.arena[24].defs == [] && m.arena[25].LeafCell?
    requires Adds(LATE, m, 24, [25], m', out)
    ensures out.Done? && m' == m.(arena := m.arena[24 := m.arena[24].(defs := [25])])
  {
    hide Adds, AddsOne, Clones;
    assert [25] + [] == [25] && [] + [25] == [25];
    AddsLeaf(LATE, m, 24, 25, [], m', out);
    AddsEnd(LATE, Append(m, 24, 25), 24, m', out);
  }

  /** Below cell 9: it is shared by cells 14 and 19, then it meets what cell 16 has registered. */
  lemma RunThree(m: Memory, m': Memory, out: Outcome)
    requires Has(m, First([9], [], [12]), map[4 := 7], []) && Adds(LATE, m, 9, [10], m', out)
    ensures out.Done?
    ensures Has(m', Before([9], [12]), map[4 := 7, 1 := 9, 2 := 16, 3 := 16], [(9, 14), (9, 19), (16, 21), (16, 9)])
  {
    hide Adds, AddsOne, Clones;
    assert [10] + [] == [10];
    var m1, m2, o := AddsCloned(LATE, m, 9, 10, [], m', out);
    Clones1(m, m1, 9, 1, 14);
    RunThreeCopy(m1, m2, o);
    AddsEnd(LATE, m2, 9, m', out);
  }

  /** All cells once cell 9 has been dealt with. */
  function Before(top: seq<Ref>, four: seq<Ref>): seq<Cell> {
    First(top, [14, 16], four) + [Cell3([]), UsesCell(1, "g1")]
    + [Cell4([19, 21, 24]), UsesCell(2, "g1"), UsesCell(3, "g0")] + Second([], []) + Copy0(24)
  }

  lemma RunThreeCopy(m: Memory, m': Memory, out: Outcome)
    requires Has(m, First([9], [], [12]) + Copy1(14), map[4 := 7, 1 := 9], [])
             && Adds(LATE, m, 9, [14, 16, 18], m', out)
    ensures out.Done?
    ensures Has(m', Before([9], [12]), map[4 := 7, 1 := 9, 2 := 16, 3 := 16], [(9, 14), (9, 19), (16, 21), (16, 9)])
  {
    hide Adds, AddsOne, Clones;
    assert [14] + [16, 18] == [14, 16, 18] && [] + [14] == [14];
    AddsDuplicate(LATE, m, 9, 14, 15, [16, 18], m', out);
    var p := Pop(Append(m, 9, 14), 14);
    var m1 := p.(recursives := p.recursives + [(9, 14)]);
    assert m1.arena == First([9], [14], [12]) + Second([], [17]);
    RunThreeNode(m1, m', out);
  }

  lemma RunThreeNode(m: Memory, m': Memory, out: Outcome)
    requires Has(m, First([9], [14], [12]) + Second([], [17]), map[4 := 7, 1 := 9], [(9, 14)])
    requires Adds(LATE, m, 9, [16, 18], m', out)
    ensures out.Done?
    ensures Has(m', Before([9], [12]), map[4 := 7, 1 := 9, 2 := 16, 3 := 16], [(9, 14), (9, 19), (16, 21), (16, 9)])
  {
    hide Adds, AddsOne, Clones;
    assert [16] + [18] == [16, 18] && [18] + [] == [18] && [14] + [16] == [14, 16];
    var m2, o := AddsNode(LATE, m, 9, 16, [18], m', out);
    var q := Pop(Append(m, 9, 16), 16);
    var a := First([9], [14, 16], [12]) + [Cell3([]), UsesCell(1, "g1")];
    assert q.arena == a + [Cell4([]), UsesCell(2, "g1"), UsesCell(3, "g0")];
    RunInner(a, q, m2, o);
    assert m2.arena == Before([9], [12]);
    AddsShared(LATE, m2, 9, 18, [], m', out);
  }

  const PAIRS: seq<(Ref, Ref)> := [(9, 14), (9, 19), (16, 21), (16, 9), (16, 11), (16, 7)]

  lemma RunAll(m: Memory, m': Memory, out: Outcome)
    requires Has(m, Begin()[TOP := Root([])], map[], []) && Adds(LATE, m, TOP, [8], m', out)
    ensures out.Done? && m'.arena == Before([9, 11], []) && m'.recursives == PAIRS
  {
    hide Adds, AddsOne, Clones;
    assert [8] + [] == [8];
    var m1, m2, o := AddsCloned(LATE, m, TOP, 8, [], m', out);
    Clones1(m, m1, TOP, 4, 9);
    RunTop(m1, m2, o);
    AddsEnd(LATE, m2, TOP, m', out);
  }

  lemma RunTop(m: Memory, m': Memory, out: Outcome)
    requires Has(m, Begin()[TOP := Root([])] + Copy1(9), map[4 := 7], []) && Adds(LATE, m, TOP, [9, 11, 13], m', out)
    ensures out.Done? && m'.arena == Before([9, 11], []) && m'.recursives == PAIRS
  {
    hide Adds, AddsOne, Clones;
    assert [9] + [11, 13] == [9, 11, 13] && [11] + [13] == [11, 13] && [13] + [] == [13];
    assert [] + [9] == [9] && [9] + [11] == [9, 11];
    var m1, o := AddsNode(LATE, m, TOP, 9, [11, 13], m', out);
    var p := Pop(Append(m, TOP, 9), 9);
    assert p.arena == First([9], [], [12]);
    RunThree(p, m1, o);
    RunTopLast(m1, m', out);
  }

  lemma TopAdded(m: Memory)
    requires m.arena == Before([9], [12])
    ensures |m.arena| == 26 && m.arena[TOP].NodeCell? && m.arena[11].NodeCell?
    ensures Pop(Append(m, TOP, 11), 11).arena == Before([9, 11], [])
  {
    assert [9] + [11] == [9, 11];
  }

  lemma RunTopLast(m: Memory, m': Memory, out: Outcome)
    requires Has(m, Before([9], [12]), map[4 := 7, 1 := 9, 2 := 16, 3 := 16], [(9, 14), (9, 19), (16, 21), (16, 9)])
    requires Adds(LATE, m, TOP, [11, 13], m', out)
    ensures out.Done? && m'.arena == Before([9, 11], []) && m'.recursives == PAIRS
  {
    hide Adds, AddsOne, Clones;
    assert [11] + [13] == [11, 13] && [13] + [] == [13];
    AddsDuplicate(LATE, m, TOP, 11, 12, [13], m', out);
    TopAdded(m);
    var q := Pop(Append(m, TOP, 11), 11);
    var m1 := q.(recursives := q.recursives + [(16, 11)]);
    AddsShared(LATE, m1, TOP, 13, [], m', out);
  }

  // ---------- filling in ----------

  /** Cells with these definitions, of which none clash. */
  ghost predicate Holds(a: seq<Cell>, nine: seq<Ref>, nineteen: seq<Ref>, top: seq<Ref>) {
    && |a| == 26 && (forall r :: 0 <= r < |a| ==> SameIdent(a[r], Before([9, 11], [])[r]))
    && a[9].defs == nine && a[16].defs == [19, 21, 24] && a[19].defs == nineteen && a[7].defs == top
  }

  ghost predicate SameIdent(c: Cell, d: Cell) {
    if c.NodeCell? then d.NodeCell? && c.ident == d.ident else c == d
  }

  lemma FillsFirst(a: seq<Cell>, pair: (Ref, Ref), pairs: seq<(Ref, Ref)>, a': seq<Cell>, done: bool)
    requires Fills(a, [pair] + pairs, a', done) && Fillable(a, pair) && Fits(a, pair)
    ensures Fills(Fill(a, pair), pairs, a', done)
  {
    assert ([pair] + pairs)[1..] == pairs;
  }

  lemma NoClash(a: seq<Cell>, nine: seq<Ref>, nineteen: seq<Ref>, top: seq<Ref>)
    requires Holds(a, nine, nineteen, top)
    ensures NamesDiffer(a, [14, 16]) && NamesDiffer(a, [19, 21, 24])
  {
    assert SameIdent(a[14], Cell3([])) && SameIdent(a[16], Cell4([19, 21, 24]));
    assert SameIdent(a[19], Cell3([])) && SameIdent(a[21], Cell4([])) && SameIdent(a[24], Cell1([25]));
  }

  lemma FillAll(a': seq<Cell>, done: bool)
    requires Fills(Before([9, 11], []), PAIRS, a', done)
    ensures done && Holds(a', [19, 21, 24], [14, 16], [19, 21, 24])
  {
    hide Fills;
    var a0 := Before([9, 11], []);
    assert PAIRS == [(9, 14)] + ([(9, 19)] + ([(16, 21)] + ([(16, 9)] + ([(16, 11)] + ([(16, 7)] + [])))));
    NoClash(a0, [14, 16], [], [9, 11]);
    FillsFirst(a0, (9, 14), [(9, 19)] + ([(16, 21)] + ([(16, 9)] + ([(16, 11)] + ([(16, 7)] + [])))), a', done);
    var a1 := Fill(a0, (9, 14));
    NoClash(a1, [14, 16], [], [9, 11]);
    FillsFirst(a1, (9, 19), [(16, 21)] + ([(16, 9)] + ([(16, 11)] + ([(16, 7)] + []))), a', done);
    FillRest(Fill(a1, (9, 19)), a', done);
  }

  lemma FillRest(a: seq<Cell>, a': seq<Cell>, done: bool)
    requires Holds(a, [14, 16], [14, 16], [9, 11])
    requires Fills(a, [(16, 21)] + ([(16, 9)] + ([(16, 11)] + ([(16, 7)] + []))), a', done)
    ensures done && Holds(a', [19, 21, 24], [14, 16], [19, 21, 24])
  {
    hide Fills;
    FillOne(a, 21, [14, 16], [9, 11], [(16, 9)] + ([(16, 11)] + ([(16, 7)] + [])), a', done);
    var a1 := Fill(a, (16, 21));
    FillOne(a1, 9, [14, 16], [9, 11], [(16, 11)] + ([(16, 7)] + []), a', done);
    var a2 := Fill(a1, (16, 9));
    FillOne(a2, 11, [19, 21, 24], [9, 11], [(16, 7)] + [], a', done);
    var a3 := Fill(a2, (16, 11));
    FillOne(a3, 7, [19, 21, 24], [9, 11], [], a', done);
    FillsNone(Fill(a3, (16, 7)), a', done);
  }

  lemma FillsNone(a: seq<Cell>, a': seq<Cell>, done: bool)
    requires Fills(a, [], a', done)
    ensures done && a' == a
  {
  }

  /** One more cell gets the definitions of cell 16. */
  lemma FillOne(a: seq<Cell>, d: Ref, nine: seq<Ref>, top: seq<Ref>, pairs: seq<(Ref, Ref)>, a': seq<Cell>, done: bool)
    requires Holds(a, nine, [14, 16], top) && d in {21, 9, 11, 7} && Fills(a, [(16, d)] + pairs, a', done)
    ensures Fillable(a, (16, d)) && Fills(Fill(a, (16, d)), pairs, a', done)
    ensures Holds(Fill(a, (16, d)), if d == 9 then [19, 21, 24] else nine, [14, 16],
                  if d == 7 then [19, 21, 24] else top)
  {
    NoClash(a, nine, [14, 16], top);
    assert SameIdent(a[16], Cell4([19, 21, 24])) && SameIdent(a[d], Before([9, 11], [])[d]);
    hide Fills;
    FillsFirst(a, (16, d), pairs, a', done);
  }

  lemma LateRun(m': Memory, out: Outcome)
    requires Resolves(LATE, Memory(Begin(), map[], []), TOP, m', out)
    ensures out.Done? && Holds(m'.arena, [19, 21, 24], [14, 16], [19, 21, 24])
  {
    var m := Memory(Begin(), map[], []);
    var m1, o :| Adds(LATE, Pop(m, TOP), TOP, m.arena[TOP].defs, m1, o)
                 && if o.Done? then m' == m1.(arena := m'.arena) && Fills(m1.arena, m1.recursives, m'.arena, out.Done?)
                    else m' == m1 && out == o;
    assert m.arena[TOP] == Root([8]);
    hide Adds, Resolves, Fills;
    RunAll(Pop(m, TOP), m1, o);
    FillAll(m'.arena, out.Done?);
  }

  /**
    Every run ends without an error, and the container `n3` of the module has lost the container `n1`, which its list
    means: of three definitions it has two.
  */
  lemma LateIsWrong(m': Memory, out: Outcome)
    requires Resolves(LATE, Memory(Begin(), map[], []), TOP, m', out)
    ensures AlwaysSound(LATE, LATE.main) && !Clean(LATE)
    ensures forall l: seq<Def>, m: seq<Def> ::
              Reached(LATE, l) && Reached(LATE, m) && Common(LATE, l, m) ==> Alike(LATE, l, m)
    ensures out.Done? && |m'.arena| == 26 && m'.arena[TOP].NodeCell? && m'.arena[TOP].defs == [19, 21, 24]
    ensures m'.arena[19].NodeCell? && m'.arena[19].ident == "n3" && m'.arena[19].defs == [14, 16]
    ensures Flatten(LATE, N3.body) == [N3, N4, N1]
  {
    LateFacts();
    LateFlat();
    hide AlwaysSound, Clean, Reached, Common, Alike, Flatten, Met, UsesKnown, Resolves;
    LateRun(m', out);
    assert SameIdent(m'.arena[TOP], Root([9, 11])) && SameIdent(m'.arena[19], Cell3([]));
  }
}
