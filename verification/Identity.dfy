/**
  Identities (meta/compile.go, meta/core.go; section 7.18 of RFC 7950): compiling links every identity with its bases
  and every base with what is derived from it. Identities are known by number.
*/
module Identity {
  import opened Wrappers

  type Id = nat

  // ---------- compiling ----------

  /** The names of bases resolve to these identities; None is a name that nothing has. */
  type Names = seq<seq<Option<Id>>>

  ghost predicate Resolves(names: Names) {
    forall y, k :: 0 <= y < |names| && 0 <= k < |names[y]| && names[y][k].Some? ==> names[y][k].value < |names|
  }

  ghost predicate AllFound(names: seq<Option<Id>>) {
    forall k :: 0 <= k < |names| ==> names[k].Some?
  }

  /** These are the identities that the names resolve to, name by name. */
  ghost predicate BasesOf(base: seq<Id>, names: seq<Option<Id>>) {
    |base| == |names| && forall k :: 0 <= k < |names| ==> names[k] == Some(base[k])
  }

  lemma {:induction false} BasesCount(base: seq<Id>, names: seq<Option<Id>>, x: Id)
    requires BasesOf(base, names)
    ensures multiset(base)[x] == multiset(names)[Some(x)]
    ensures x in base <==> Some(x) in names
  {
    if base != [] {
      var n := |base| - 1;
      BasesCount(base[..n], names[..n], x);
      assert base == base[..n] + [base[n]] && names == names[..n] + [names[n]];
    }
  }

  datatype Node = Node(base: Option<seq<Id>>, derived: seq<Id>)

  function BaseOf(n: Node): seq<Id> {
    if n.base.Some? then n.base.value else []
  }

  /** `derived` is the inverse of `base`: every edge is in both, equally often. */
  ghost predicate Inverse(nodes: seq<Node>) {
    forall x, y :: 0 <= x < |nodes| && 0 <= y < |nodes| ==> EdgeOk(nodes, x, y)
  }

  ghost predicate EdgeOk(nodes: seq<Node>, x: Id, y: Id)
    requires x < |nodes| && y < |nodes|
  {
    multiset(nodes[x].derived)[y] == multiset(BaseOf(nodes[y]))[x]
  }

  ghost predicate InRange(nodes: seq<Node>) {
    forall y, k :: 0 <= y < |nodes| && 0 <= k < |nodes[y].derived| ==> nodes[y].derived[k] < |nodes|
  }

  /** What has been started before stays as it is; what has been started since is complete. */
  ghost predicate Progress(names: Names, before: seq<Node>, after: seq<Node>)
    requires |names| == |before|
  {
    && |after| == |before|
    && forall y :: 0 <= y < |before| ==> Progressed(names[y], before[y], after[y])
  }

  ghost predicate Progressed(names: seq<Option<Id>>, before: Node, after: Node) {
    if before.base.Some? then after.base == before.base
    else after.base.None? || BasesOf(after.base.value, names)
  }

  /** The first `k` bases of `y` are linked, and everything else that was started since is complete. */
  ghost predicate WorkingOn(names: Names, before: seq<Node>, nodes: seq<Node>, y: Id, k: nat)
    requires |names| == |before| && y < |names| && k <= |names[y]|
  {
    && |nodes| == |before|
    && (forall i :: 0 <= i < k ==> names[y][i].Some?)
    && nodes[y].base.Some? && BasesOf(nodes[y].base.value, names[y][..k]) && before[y].base.None?
    && forall z :: 0 <= z < |before| && z != y ==> Progressed(names[z], before[z], nodes[z])
  }

  lemma LinkedOn(names: Names, before: seq<Node>, nodes: seq<Node>, after: seq<Node>, y: Id, k: nat, x: Id)
    requires |names| == |before| == |nodes| && x < |nodes|
    requires y < |names| && k < |names[y]| && names[y][k] == Some(x)
    requires WorkingOn(names, before, nodes, y, k) && |after| == |nodes| && Linked(nodes, after, y, x)
    ensures WorkingOn(names, before, after, y, k + 1)
  {
    assert names[y][..k + 1] == names[y][..k] + [Some(x)];
    hide BasesOf, Linked;
    BasesMore(nodes[y].base.value, names[y][..k], x);
    LinkedBases(nodes, after, y, x);
    forall z | 0 <= z < |before| && z != y ensures Progressed(names[z], before[z], after[z]) {
      assert Progressed(names[z], before[z], nodes[z]);
    }
  }

  lemma BasesMore(base: seq<Id>, names: seq<Option<Id>>, x: Id)
    requires BasesOf(base, names)
    ensures BasesOf(base + [x], names + [Some(x)])
  {
  }

  lemma LinkedBases(nodes: seq<Node>, after: seq<Node>, y: Id, x: Id)
    requires |after| == |nodes| && x < |nodes| && y < |nodes| && Linked(nodes, after, y, x) && nodes[y].base.Some?
    ensures after[y].base == Some(nodes[y].base.value + [x])
    ensures forall z :: 0 <= z < |nodes| && z != y ==> after[z].base == nodes[z].base
  {
  }

  /** How many identities have not been started. */
  ghost function Unstarted(nodes: seq<Node>): nat {
    if nodes == [] then 0 else Unstarted(nodes[..|nodes| - 1]) + if nodes[|nodes| - 1].base.None? then 1 else 0
  }

  lemma {:induction false} UnstartedLess(a: seq<Node>, b: seq<Node>)
    requires |a| == |b| && forall y :: 0 <= y < |a| && a[y].base.Some? ==> b[y].base.Some?
    ensures Unstarted(b) <= Unstarted(a)
    ensures (exists y :: 0 <= y < |a| && a[y].base.None? && b[y].base.Some?) ==> Unstarted(b) < Unstarted(a)
  {
    if a != [] {
      UnstartedLess(a[..|a| - 1], b[..|b| - 1]);
      if y :| 0 <= y < |a| - 1 && a[y].base.None? && b[y].base.Some? {
        assert a[..|a| - 1][y] == a[y] && b[..|b| - 1][y] == b[y];
      }
    }
  }

  ghost predicate Linked(before: seq<Node>, after: seq<Node>, y: Id, x: Id)
    requires |before| == |after| && x < |before| && y < |before|
  {
    && after[y].base == Some(BaseOf(before[y]) + [x])
    && after[x].derived == before[x].derived + [y]
    && (forall z :: 0 <= z < |before| && z != y ==> after[z].base == before[z].base)
    && (forall z :: 0 <= z < |before| && z != x ==> after[z].derived == before[z].derived)
  }

  lemma LinkKeeps(before: seq<Node>, after: seq<Node>, y: Id, x: Id)
    requires |before| == |after| && x < |before| && y < |before| && Linked(before, after, y, x)
    requires Inverse(before) && InRange(before)
    ensures Inverse(after) && InRange(after)
  {
    forall u, v | 0 <= u < |after| && 0 <= v < |after| ensures EdgeOk(after, u, v) {
      assert EdgeOk(before, u, v);
    }
  }

  class Compiler {
    const names: Names
    const idents: seq<string>
    var nodes: seq<Node>

    constructor (names: Names, idents: seq<string>)
      requires Resolves(names) && |idents| == |names|
      ensures Valid() && this.names == names && this.idents == idents
      ensures forall y :: 0 <= y < |nodes| ==> nodes[y] == Node(None, [])
    {
      this.names, this.idents := names, idents;
      nodes := seq(|names|, _ => Node(None, []));
    }

    ghost predicate Valid()
      reads this
    {
      && Resolves(names) && |nodes| == |names| == |idents|
      && Inverse(nodes) && InRange(nodes)
    }

    /** Links an identity with its bases, and these with theirs; false if a base cannot be found. */
    method Identity(y: Id) returns (ok: bool)
      requires Valid() && y < |nodes|
      modifies this`nodes
      ensures Valid() && (ok ==> Progress(names, old(nodes), nodes) && nodes[y].base.Some?)
      ensures ok && old(nodes)[y].base.None? ==> BasesOf(nodes[y].base.value, names[y])
      ensures !ok ==> exists z :: 0 <= z < |names| && !AllFound(names[z])
      decreases Unstarted(nodes)
    {
      if nodes[y].base.Some? {
        return true;
      }
      ghost var before := nodes;
      nodes := nodes[y := nodes[y].(base := Some([]))];
      StartKeeps(before, nodes, y);
      UnstartedLess(before, nodes);
      assert Working(before, y, 0) && Valid();
      hide Inverse, InRange, BasesOf, Working, Progress, Unstarted;
      var k := 0;
      while k < |names[y]|
        invariant k <= |names[y]| && Valid() && Unstarted(nodes) < Unstarted(before)
        invariant Working(before, y, k)
      {
        if names[y][k].None? {
          assert !AllFound(names[y]);
          return false;
        }
        var x := names[y][k].value;
        Link(before, y, k, x);
        ghost var linked := nodes;
        ok := Identity(x);
        if !ok {
          return;
        }
        k := k + 1;
        WorkedOn(before, linked, y, k);
      }
      WorkEnds(before, y);
      ok := true;
    }

    ghost predicate Working(before: seq<Node>, y: Id, k: nat)
      reads this
      requires |names| == |before| && y < |names| && k <= |names[y]|
    {
      WorkingOn(names, before, nodes, y, k)
    }

    lemma StartKeeps(before: seq<Node>, after: seq<Node>, y: Id)
      requires y < |before| && before[y].base.None? && after == before[y := before[y].(base := Some([]))]
      requires Inverse(before) && InRange(before)
      ensures Inverse(after) && InRange(after)
    {
      forall u, v | 0 <= u < |after| && 0 <= v < |after| ensures EdgeOk(after, u, v) {
        assert EdgeOk(before, u, v);
      }
    }

    method Link(ghost before: seq<Node>, y: Id, k: nat, x: Id)
      requires Valid() && |before| == |nodes| && y < |nodes| && k < |names[y]| && names[y][k] == Some(x) && x < |nodes|
      requires Working(before, y, k)
      modifies this`nodes
      ensures Valid() && Working(before, y, k + 1) && Unstarted(nodes) <= Unstarted(old(nodes))
    {
      hide Inverse, InRange, BasesOf, WorkingOn, Unstarted;
      nodes := nodes[y := nodes[y].(base := Some(BaseOf(nodes[y]) + [x]))];
      nodes := nodes[x := nodes[x].(derived := nodes[x].derived + [y])];
      LinkKeeps(old(nodes), nodes, y, x);
      UnstartedLess(old(nodes), nodes);
      LinkedOn(names, before, old(nodes), nodes, y, k, x);
    }

    lemma WorkedOn(before: seq<Node>, linked: seq<Node>, y: Id, k: nat)
      requires |before| == |linked| == |names| == |nodes| && y < |names| && k <= |names[y]|
      requires WorkingOn(names, before, linked, y, k) && Progress(names, linked, nodes)
      ensures Working(before, y, k) && Unstarted(nodes) <= Unstarted(linked)
    {
      forall z | 0 <= z < |before| && z != y ensures Progressed(names[z], before[z], nodes[z]) {
        assert Progressed(names[z], before[z], linked[z]) && Progressed(names[z], linked[z], nodes[z]);
      }
      assert Progressed(names[y], linked[y], nodes[y]);
      UnstartedLess(linked, nodes);
    }

    lemma WorkEnds(before: seq<Node>, y: Id)
      requires |names| == |before| && y < |names| && Working(before, y, |names[y]|)
      ensures Progress(names, before, nodes) && nodes[y].base.Some? && BasesOf(nodes[y].base.value, names[y])
    {
      assert names[y][..|names[y]|] == names[y];
    }

    /** Compiles all identities, in whatever order; this succeeds exactly when every base can be found. */
    method CompileAll(order: seq<Id>) returns (ok: bool)
      requires Valid() && forall y :: 0 <= y < |nodes| ==> nodes[y].base.None?
      requires (forall i :: 0 <= i < |order| ==> order[i] < |nodes|) && forall y :: 0 <= y < |nodes| ==> y in order
      modifies this`nodes
      ensures Valid()
      ensures ok <==> forall y, k :: 0 <= y < |names| && 0 <= k < |names[y]| ==> names[y][k].Some?
      ensures ok ==> Compiled(names, nodes)
      ensures ok ==> forall y :: 0 <= y < |names| ==>
                nodes[y].base.Some? && |nodes[y].base.value| == |names[y]|
                && forall k :: 0 <= k < |names[y]| ==> names[y][k] == Some(nodes[y].base.value[k])
      ensures ok ==> forall x, y :: 0 <= x < |nodes| && 0 <= y < |nodes| ==>
                multiset(nodes[x].derived)[y] == multiset(names[y])[Some(x)]
    {
      ghost var before := nodes;
      var i := 0;
      while i < |order|
        invariant i <= |order| && Valid() && Progress(names, before, nodes)
        invariant forall j :: 0 <= j < i ==> nodes[order[j]].base.Some?
      {
        ghost var now := nodes;
        ok := Identity(order[i]);
        if !ok {
          return;
        }
        forall z | 0 <= z < |before| ensures Progressed(names[z], before[z], nodes[z]) {
          assert Progressed(names[z], before[z], now[z]) && Progressed(names[z], now[z], nodes[z]);
        }
        forall j | 0 <= j < i ensures nodes[order[j]].base.Some? {
          assert Progressed(names[order[j]], now[order[j]], nodes[order[j]]);
        }
        i := i + 1;
      }
      ok := true;
      forall y | 0 <= y < |names| ensures nodes[y].base.Some? && BasesOf(nodes[y].base.value, names[y]) {
        assert y in order;
        var j :| 0 <= j < |order| && order[j] == y;
        assert Progressed(names[y], before[y], nodes[y]);
      }
      forall x, y | 0 <= x < |nodes| && 0 <= y < |nodes|
        ensures multiset(nodes[x].derived)[y] == multiset(names[y])[Some(x)]
      {
        DerivedIsInverse(names, nodes, y, x);
      }
    }

    /** Identity.Derived: the identity and all that is derived from it, by name; of those with one name one is kept. */
    method Derived(y: Id) returns (all: map<string, Id>)
      requires Valid() && Compiled(names, nodes) && y < |nodes| && exists rank :: Acyclic(names, rank)
      ensures forall name :: name in all <==> exists z: Id :: z < |nodes| && Reaches(names, z, y) && idents[z] == name
      ensures forall name :: name in all ==>
                all[name] < |nodes| && idents[all[name]] == name && Reaches(names, all[name], y)
      ensures Distinct(idents) ==> all.Values == set z: Id | z < |nodes| && Reaches(names, z, y)
    {
      ghost var rank :| Acyclic(names, rank);
      all := DerivedRecursive(y, map[], rank);
      ghost var ids := ClosureOf(nodes, y, rank);
      forall z: Id | z < |nodes| ensures z in ids <==> Reaches(names, z, y) {
        ClosureIsReach(names, nodes, z, y, rank);
      }
      hide ClosureOf, Reaches, Acyclic, Compiled;
      forall name ensures name in all <==> exists z: Id :: z < |nodes| && Reaches(names, z, y) && idents[z] == name {
        if z: Id :| z in ids && z < |nodes| && idents[z] == name {
          assert Reaches(names, z, y);
        }
        if z: Id :| z < |nodes| && Reaches(names, z, y) && idents[z] == name {
          assert Has(idents, ids, name);
        }
      }
      if Distinct(idents) {
        forall z: Id ensures z in all.Values <==> z < |nodes| && Reaches(names, z, y) {
          if z < |nodes| && Reaches(names, z, y) {
            assert idents[z] in all && all[idents[z]] == z;
          }
          if z in all.Values {
            assert exists name :: name in all && all[name] == z;
          }
        }
      }
    }

    method DerivedRecursive(y: Id, all: map<string, Id>, ghost rank: seq<nat>) returns (r: map<string, Id>)
      requires Valid() && Compiled(names, nodes) && y < |nodes| && Acyclic(names, rank)
      ensures Gathered(idents, all, r, ClosureOf(nodes, y, rank))
      decreases rank[y]
    {
      r := all[idents[y] := y];
      GatherOne(idents, all, y);
      assert {y} + ClosureOfSome(nodes, nodes[y].derived[..0], y, rank) == {y};
      hide Gathered, Valid, Compiled, Acyclic, ClosureOf, ClosureOfSome;
      var i := 0;
      while i < |nodes[y].derived|
        invariant i <= |nodes[y].derived|
        invariant Gathered(idents, all, r, {y} + ClosureOfSome(nodes, nodes[y].derived[..i], y, rank))
      {
        var x := nodes[y].derived[i];
        ghost var before := r;
        Next(y, i, rank);
        r := DerivedRecursive(x, r, rank);
        GatherMore(idents, all, before, r, {y} + ClosureOfSome(nodes, nodes[y].derived[..i], y, rank),
                   ClosureOf(nodes, x, rank));
        i := i + 1;
      }
      End(y, rank);
    }

    lemma Next(y: Id, i: nat, rank: seq<nat>)
      requires Valid() && Compiled(names, nodes) && y < |nodes| && Acyclic(names, rank) && i < |nodes[y].derived|
      ensures nodes[y].derived[i] < |nodes| && rank[nodes[y].derived[i]] < rank[y]
      ensures {y} + ClosureOfSome(nodes, nodes[y].derived[..i], y, rank) + ClosureOf(nodes, nodes[y].derived[i], rank)
           == {y} + ClosureOfSome(nodes, nodes[y].derived[..i + 1], y, rank)
    {
      RankFalls(names, nodes, y, i, rank);
      var some := nodes[y].derived[..i + 1];
      assert some[..i] == nodes[y].derived[..i] && some[i] == nodes[y].derived[i];
    }

    lemma End(y: Id, rank: seq<nat>)
      requires y < |nodes| == |rank|
      ensures {y} + ClosureOfSome(nodes, nodes[y].derived[..|nodes[y].derived|], y, rank) == ClosureOf(nodes, y, rank)
    {
      assert nodes[y].derived[..|nodes[y].derived|] == nodes[y].derived;
    }
  }

  // ---------- what is derived ----------

  ghost predicate Has(idents: seq<string>, ids: set<Id>, name: string) {
    exists z: Id :: z in ids && z < |idents| && idents[z] == name
  }

  /** `r` has the names in `all` and those of `ids`, and under each of them what `all` had or one of `ids`. */
  ghost predicate Gathered(idents: seq<string>, all: map<string, Id>, r: map<string, Id>, ids: set<Id>) {
    && (forall name :: name in r <==> name in all || Has(idents, ids, name))
    && (forall name :: name in r ==>
          || (r[name] in ids && r[name] < |idents| && idents[r[name]] == name)
          || (name in all && r[name] == all[name]))
  }

  lemma GatherOne(idents: seq<string>, all: map<string, Id>, y: Id)
    requires y < |idents|
    ensures Gathered(idents, all, all[idents[y] := y], {y})
  {
    assert Has(idents, {y}, idents[y]);
  }

  lemma GatherMore(idents: seq<string>, all: map<string, Id>, before: map<string, Id>, r: map<string, Id>, a: set<Id>,
                   b: set<Id>)
    requires Gathered(idents, all, before, a) && Gathered(idents, before, r, b)
    ensures Gathered(idents, all, r, a + b)
  {
    forall name ensures Has(idents, a + b, name) <==> Has(idents, a, name) || Has(idents, b, name) {
    }
  }

  ghost predicate Compiled(names: Names, nodes: seq<Node>) {
    && |nodes| == |names|
    && forall y :: 0 <= y < |names| ==> nodes[y].base.Some? && BasesOf(nodes[y].base.value, names[y])
  }

  ghost predicate Distinct(idents: seq<string>) {
    forall i, j :: 0 <= i < j < |idents| ==> idents[i] != idents[j]
  }

  /** Every identity ranks below its bases. */
  ghost predicate Acyclic(names: Names, rank: seq<nat>) {
    && |rank| == |names|
    && forall y, x :: 0 <= y < |names| && Some(x) in names[y] && x < |names| ==> rank[y] < rank[x]
  }

  /** From `z` one gets to `y` by following `n` bases. */
  ghost predicate ReachesIn(names: Names, z: Id, y: Id, n: nat)
    decreases n
  {
    if n == 0 then z == y else
      exists x: Id :: x < |names| && ReachesIn(names, z, x, n - 1) && Some(y) in names[x]
  }

  ghost predicate Reaches(names: Names, z: Id, y: Id) {
    exists n: nat :: ReachesIn(names, z, y, n)
  }

  ghost function ClosureOf(nodes: seq<Node>, y: Id, rank: seq<nat>): set<Id>
    requires y < |nodes| == |rank|
    decreases rank[y], 1, 0
  {
    {y} + ClosureOfSome(nodes, nodes[y].derived, y, rank)
  }

  ghost function ClosureOfSome(nodes: seq<Node>, some: seq<Id>, y: Id, rank: seq<nat>): set<Id>
    requires y < |nodes| == |rank|
    decreases rank[y], 0, |some|
  {
    if some == [] then {} else
      var x := some[|some| - 1];
      ClosureOfSome(nodes, some[..|some| - 1], y, rank)
      + if x < |nodes| && rank[x] < rank[y] then ClosureOf(nodes, x, rank) else {}
  }

  /** What is derived from `y` has `y` as a base, and the other way round. */
  lemma DerivedIsInverse(names: Names, nodes: seq<Node>, x: Id, y: Id)
    requires Compiled(names, nodes) && Inverse(nodes) && x < |nodes| && y < |nodes|
    ensures x in nodes[y].derived <==> Some(y) in names[x]
    ensures multiset(nodes[y].derived)[x] == multiset(names[x])[Some(y)]
  {
    assert EdgeOk(nodes, y, x);
    BasesCount(nodes[x].base.value, names[x], y);
    assert x in nodes[y].derived <==> multiset(nodes[y].derived)[x] > 0;
    assert Some(y) in names[x] <==> multiset(names[x])[Some(y)] > 0;
  }

  lemma RankFalls(names: Names, nodes: seq<Node>, y: Id, i: nat, rank: seq<nat>)
    requires Compiled(names, nodes) && Inverse(nodes) && InRange(nodes) && Acyclic(names, rank)
    requires y < |nodes| && i < |nodes[y].derived|
    ensures nodes[y].derived[i] < |nodes| && rank[nodes[y].derived[i]] < rank[y]
  {
    DerivedIsInverse(names, nodes, nodes[y].derived[i], y);
  }

  lemma {:induction false} ClosureOfSomeIs(names: Names, nodes: seq<Node>, some: seq<Id>, z: Id, y: Id, rank: seq<nat>)
    requires y < |nodes| == |rank|
    requires forall i :: 0 <= i < |some| ==> some[i] < |nodes| && rank[some[i]] < rank[y]
    ensures z in ClosureOfSome(nodes, some, y, rank) <==>
              exists i :: 0 <= i < |some| && z in ClosureOf(nodes, some[i], rank)
  {
    if some != [] {
      ClosureOfSomeIs(names, nodes, some[..|some| - 1], z, y, rank);
    }
  }

  /** Derived() holds exactly the identities that reach this one through their bases. */
  lemma {:induction false} ClosureIsReach(names: Names, nodes: seq<Node>, z: Id, y: Id, rank: seq<nat>)
    requires Compiled(names, nodes) && Inverse(nodes) && InRange(nodes) && Acyclic(names, rank)
    requires z < |nodes| && y < |nodes|
    ensures z in ClosureOf(nodes, y, rank) <==> Reaches(names, z, y)
    decreases rank[y]
  {
    var some := nodes[y].derived;
    forall i | 0 <= i < |some|
      ensures some[i] < |nodes| && rank[some[i]] < rank[y]
              && (z in ClosureOf(nodes, some[i], rank) <==> Reaches(names, z, some[i]))
    {
      RankFalls(names, nodes, y, i, rank);
      ClosureIsReach(names, nodes, z, some[i], rank);
    }
    ClosureOfSomeIs(names, nodes, some, z, y, rank);
    if i :| 0 <= i < |some| && Reaches(names, z, some[i]) {
      DerivedIsInverse(names, nodes, some[i], y);
      var n: nat :| ReachesIn(names, z, some[i], n);
      assert ReachesIn(names, z, y, n + 1);
    }
    if Reaches(names, z, y) && z != y {
      var n: nat :| ReachesIn(names, z, y, n);
      var x: Id :| x < |names| && ReachesIn(names, z, x, n - 1) && Some(y) in names[x];
      DerivedIsInverse(names, nodes, x, y);
      assert Reaches(names, z, x);
    }
    if z == y {
      assert ReachesIn(names, z, y, 0);
    }
  }
}
