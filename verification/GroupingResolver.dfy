/**
  The resolver of meta/resolver.go: it adds the definitions of a module one by one, puts a clone of its grouping in
  the place of every `uses`, shares the children of a node that met the same `uses` before, and in the end copies
  them over.
*/
module GroupingResolver {
  import opened SchemaText
  import opened DefinitionArena
  import opened ResolverRun
  import opened ResolverState
  import opened ResolverSharing
  import opened ResolverSteps
  import opened ResolverGraph

  /** One more definition keeps the names different exactly if none of those before has its name. */
  lemma DiffersOn(a: seq<Cell>, b: seq<Cell>, d: Ref, rs: seq<Ref>, j: nat)
    requires j < |rs| && |a| == |b| && SameHeads(a, b) && forall i :: 0 <= i < |rs| ==> rs[i] < |a|
    requires NamesDiffer(a, rs[..j])
    ensures NamesDiffer(a, rs[..j + 1]) <==> forall i :: 0 <= i < j ==> CellName(b[rs[..j][i]]) != CellName(b[rs[j]])
  {
    forall i | 0 <= i <= j ensures CellName(a[rs[i]]) == CellName(b[rs[i]]) {
      assert SameHead(a[rs[i]], b[rs[i]]);
    }
    assert rs[..j + 1] == rs[..j] + [rs[j]];
  }

  lemma DefsLinked(a: seq<Cell>, m: Ref)
    requires Linked(a) && m < |a| && a[m].NodeCell?
    ensures forall i :: 0 <= i < |a[m].defs| ==> a[m].defs[i] < |a|
  {
  }

  lemma Refilled(a: seq<Cell>, b: seq<Cell>, d: Ref, defs: seq<Ref>)
    requires Linked(a) && d < |a| == |b| && a[d].NodeCell? && b[d] == a[d].(defs := defs, recursive := true)
    requires forall r :: 0 <= r < |a| && r != d ==> b[r] == a[r]
    requires forall i :: 0 <= i < |defs| ==> defs[i] < |a|
    ensures Linked(b) && SameHeads(a, b)
  {
  }

  lemma DiffersNone(a: seq<Cell>)
    ensures NamesDiffer(a, [])
  {
  }

  lemma DoesNotFit(a: seq<Cell>, m: Ref, d: Ref, rs: seq<Ref>, j: nat)
    requires Fillable(a, (m, d)) && m != d && rs == a[m].defs && j < |rs| && !NamesDiffer(a, rs[..j + 1])
    ensures !Fits(a, (m, d))
  {
    var i, k :| 0 <= i < k < j + 1 && rs[..j + 1][i] < |a| && rs[..j + 1][k] < |a|
                && CellName(a[rs[..j + 1][i]]) == CellName(a[rs[..j + 1][k]]);
    assert rs[i] == rs[..j + 1][i] && rs[k] == rs[..j + 1][k];
  }

  lemma FilledOne(a: seq<Cell>, b: seq<Cell>, m: Ref, d: Ref)
    requires Fillable(a, (m, d)) && |a| == |b| && forall r :: 0 <= r < |a| && r != d ==> b[r] == a[r]
    requires b[d] == a[d].(defs := if m == d then [] else a[m].defs, recursive := true)
    requires m != d ==> NamesDiffer(a, a[m].defs)
    ensures b == Fill(a, (m, d)) && Fits(a, (m, d))
  {
  }

  class Resolver {
    const groupings: map<string, seq<Ref>>
    ghost const c: Config
    var arena: seq<Cell>
    var inProgressUses: map<nat, Ref>
    var recursives: seq<(Ref, Ref)>
    ghost var source: map<Ref, seq<Def>>

    ghost function Now(): State
      reads this
    {
      State(arena, source, inProgressUses, recursives)
    }

    ghost function Mem(): Memory
      reads this
    {
      Memory(arena, inProgressUses, recursives)
    }

    ghost predicate Valid()
      reads this
    {
      && Sane(c, Now())
      && groupings.Keys == c.base.Keys
      && forall g :: g in groupings ==> groupings[g] == Refs(c.base[g], c.text.groups[g])
    }

    /** A resolver that has met nothing yet. */
    constructor (groupings: map<string, seq<Ref>>, arena: seq<Cell>, ghost c: Config)
      requires Sane(c, State(arena, map[], map[], [])) && groupings.Keys == c.base.Keys
      requires forall g :: g in groupings ==> groupings[g] == Refs(c.base[g], c.text.groups[g])
      ensures Valid() && this.c == c && Now() == State(arena, map[], map[], [])
    {
      this.groupings, this.arena, this.c := groupings, arena, c;
      inProgressUses, recursives, source := map[], [], map[];
    }

    // ---------- tree operations ----------

    /** A deep copy, in new cells. */
    method Clone(r: Ref, ghost d: Def) returns (copy: Ref)
      requires LaidOut(arena, r, d)
      modifies this`arena
      ensures copy == |old(arena)| && |arena| == copy + Size(d)
      ensures Extends(old(arena), arena)
      ensures LaidOut(arena, copy, d)
      decreases d, 0
    {
      copy := |arena|;
      var orig := arena[r];
      arena := arena + [orig];
      if orig.NodeCell? {
        LaidOutAllFrame(old(arena), arena, r + 1, d.body);
        var copyDefs := CloneDefs(orig.defs, r + 1, d.body);
        ghost var before := arena;
        arena := arena[copy := orig.(defs := copyDefs)];
        LaidOutAllFrame(before, arena, copy + 1, d.body);
      }
    }

    method CloneDefs(defs: seq<Ref>, ghost lo: Ref, ghost ds: seq<Def>) returns (copy: seq<Ref>)
      requires defs == Refs(lo, ds) && LaidOutAll(arena, lo, ds)
      modifies this`arena
      ensures copy == Refs(|old(arena)|, ds) && |arena| == At(|old(arena)|, ds, |ds|)
      ensures Extends(old(arena), arena)
      ensures LaidOutAll(arena, |old(arena)|, ds)
      decreases ds, 1
    {
      copy := [];
      ghost var n := |arena|;
      for i := 0 to |defs|
        invariant |copy| == i && |arena| == At(n, ds, i)
        invariant Extends(old(arena), arena)
        invariant copy == Refs(n, ds)[..i]
        invariant LaidOutUpto(arena, n, ds, i)
      {
        ghost var before := arena;
        LaidOutPart(old(arena), arena, lo, ds, i);
        var copyDef := Clone(defs[i], ds[i]);
        copy := copy + [copyDef];
        LaidOutUptoKeeps(before, arena, n, ds, i);
      }
    }

    /** Adds a definition to a node, unless the node's index already holds its name. */
    method AddDataDefinition(x: Ref, r: Ref) returns (added: bool)
      requires Linked(arena)
      requires x < |arena| && r < |arena| && arena[x].NodeCell?
      modifies this`arena
      ensures added <==> forall i :: 0 <= i < |old(arena)[x].defs| ==>
                CellName(old(arena)[old(arena)[x].defs[i]]) != CellName(old(arena)[r])
      ensures arena == if added then old(arena)[x := old(arena)[x].(defs := old(arena)[x].defs + [r])] else old(arena)
    {
      var defs := arena[x].defs;
      added := true;
      for i := 0 to |defs|
        invariant added <==> forall j :: 0 <= j < i ==> CellName(arena[defs[j]]) != CellName(arena[r])
      {
        if CellName(arena[defs[i]]) == CellName(arena[r]) {
          added := false;
        }
      }
      if added {
        arena := arena[x := arena[x].(defs := defs + [r])];
      }
    }

    method PopDataDefinitions(x: Ref) returns (defs: seq<Ref>)
      requires x < |arena| && arena[x].NodeCell?
      modifies this`arena
      ensures defs == old(arena)[x].defs
      ensures arena == old(arena)[x := old(arena)[x].(defs := [])]
    {
      defs := arena[x].defs;
      arena := arena[x := arena[x].(defs := [])];
    }

    // ---------- expansion ----------

    method DataDef(x: Ref, defs: seq<Ref>, ghost lo: Ref, ghost ds: seq<Def>, ghost at: Spot, ghost n: nat,
                   ghost open: set<Ref>, ghost own: bool)
      returns (out: Outcome)
      requires Valid() && Pending(c, Now(), x, lo, ds) && defs == Refs(lo, ds)
      requires Clean(c.text) ==> ListReady(c.text, Now(), x, ds, at, n, open, own)
      modifies this
      ensures Valid()
      ensures Grows(old(Now()), Now(), x, lo, At(lo, ds, |ds|))
      ensures Adds(c.text, old(Mem()), x, defs, Mem(), out)
      ensures Clean(c.text) && out.Done? ==> ListAdded(c.text, Now(), x, ds, at, n, open, own)
      ensures Clean(c.text) && !out.Done? ==> !AlwaysSound(c.text, source[x])
      decreases Universe(c.text) - inProgressUses.Keys, Offset(ds, |ds|), 3
    {
      hide Clean, Sane, Inv, Progress, Stopped, ItemReady, ItemAdded, ListReady, ListAdded, AlwaysSound, Grows,
           PendingOne;
      hide Pending, Onward, Adds, AddsOne, At, Offset, Refs, Size, Universe, PastSome;
      out := Done;
      ghost var s := Now();
      OnwardStarts(c.text, Mem(), x, defs);
      GrowsNothing(s, x, lo);
      AtStart(lo, ds);
      PendingSource(c, s, x, lo, ds);
      if Clean(c.text) {
        StartList(c.text, s, x, ds, at, n, open, own);
      }
      for i := 0 to |defs|
        invariant Valid()
        invariant Grows(s, Now(), x, lo, At(lo, ds, i))
        invariant Clean(c.text) ==> Progress(c.text, Now(), x, ds, i, at, n, open)
        invariant Onward(c.text, old(Mem()), x, defs, Mem(), defs[i..])
        invariant out.Done?
      {
        ghost var before, m := Now(), Mem();
        GrowsRegistry(s, before, x, lo, At(lo, ds, i));
        PendingPart(c, s, before, x, lo, ds, i);
        RefsAt(lo, ds, i);
        if Clean(c.text) {
          NextItem(c.text, s, before, x, ds, i, at, n, open, own);
        }
        var more;
        more, out := AddDataDef(x, defs[i], ds[i], PastSome(c.text, ds, i, at, n), n, open, own);
        GrowsOn(s, before, Now(), x, lo, At(lo, ds, i), At(lo, ds, i + 1));
        GrowsRegistry(s, Now(), x, lo, At(lo, ds, i + 1));
        if !out.Done? || !more {
          OnwardStops(c.text, old(Mem()), x, defs, m, i, Mem(), more, out);
          GrowsWider(s, Now(), x, lo, At(lo, ds, i + 1), At(lo, ds, |ds|));
          if Clean(c.text) && out.Done? {
            StopList(c.text, s, Now(), x, ds, i, at, n, open, own);
          }
          return;
        }
        OnwardNext(c.text, old(Mem()), x, defs, m, i, Mem());
        if Clean(c.text) {
          GrowsPairs(before, Now(), x, At(lo, ds, i), At(lo, ds, i + 1));
          ExtendProgress(c.text, before, Now(), x, ds, i, at, n, open);
        }
      }
      OnwardEnds(c.text, old(Mem()), x, defs, Mem());
      GrowsRegistry(s, Now(), x, lo, At(lo, ds, |ds|));
      if Clean(c.text) {
        FinishList(c.text, s, Now(), x, ds, at, n, open, own);
      }
    }

    method AddDataDef(x: Ref, r: Ref, ghost d: Def, ghost at: Spot, ghost n: nat, ghost open: set<Ref>, ghost own: bool)
      returns (more: bool, out: Outcome)
      requires Valid() && PendingOne(c, Now(), x, r, d)
      requires Clean(c.text) ==> ItemReady(c.text, Now(), x, d, at, n, open, own)
      modifies this
      ensures Valid()
      ensures Grows(old(Now()), Now(), x, r, r + Size(d))
      ensures AddsOne(c.text, old(Mem()), x, r, Mem(), more, out)
      ensures Clean(c.text) && out.Done? && more ==> ItemAdded(c.text, Now(), x, d, at, n, open)
      ensures Clean(c.text) && out.Done? && !more ==> Stopped(c.text, Now(), x, at, open, own)
      ensures Clean(c.text) && !out.Done? ==> !AlwaysSound(c.text, source[x])
      decreases Universe(c.text) - inProgressUses.Keys, Size(d), 2
    {
      hide Clean, Sane, Inv, Stopped, AlwaysSound, Grows, PendingOne, ItemReady, ItemAdded;
      more, out := true, Done;
      ghost var s := Now();
      PendingFacts(c, s, x, r, d);
      var child := arena[r];
      if child.UsesCell? {
        more, out := AddUses(x, r, d, at, n, open, own);
        return;
      }
      var added := AddDataDefinition(x, r);
      if !added {
        out := Conflict(child.ident);
        GrowsNothing(s, x, r);
        GrowsWider(s, s, x, r, r, r + Size(d));
        if Clean(c.text) {
          ConflictFound(c, s, x, r, d, at, n, open, own);
        }
        return;
      }
      SaneAfterAppend(c, s, Now(), x, r);
      GrowsAfterAppend(s, Now(), x, r, r + Size(d));
      if child.LeafCell? {
        if Clean(c.text) {
          LeafAdded(c, s, Now(), x, r, d, at, n, open, own);
        }
      } else {
        out := Enter(x, r, s, d, at, n, open, own);
      }
    }

    /** Recursion into a container or list that has just been added. */
    method Enter(ghost x: Ref, r: Ref, ghost s: State, ghost d: Def, ghost at: Spot, ghost n: nat, ghost open: set<Ref>,
                 ghost own: bool)
      returns (out: Outcome)
      requires Valid() && Sane(c, s) && PendingOne(c, s, x, r, d) && d.Node?
      requires Appended(s, Now(), x, r)
      requires Clean(c.text) ==> ItemReady(c.text, s, x, d, at, n, open, own)
      modifies this
      ensures Valid()
      ensures Grows(s, Now(), x, r, r + Size(d))
      ensures Adds(c.text, Pop(old(Mem()), r), r, old(arena)[r].defs, Mem(), out)
      ensures Clean(c.text) && out.Done? ==> ItemAdded(c.text, Now(), x, d, at, n, open)
      ensures Clean(c.text) && !out.Done? ==> !AlwaysSound(c.text, source[x])
      decreases Universe(c.text) - inProgressUses.Keys, Size(d), 0
    {
      hide Clean, Sane, Inv, Stopped, AlwaysSound, Grows, PendingOne, ItemReady, ItemAdded, ListReady, ListAdded,
           Pending;
      hide Adds, At, Offset, Refs, Size, Universe, Waits, Linked, SameHeads, Appended, LaidOut, START;
      ghost var s1 := Now();
      PendingFacts(c, s, x, r, d);
      AppendedFacts(s, s1, x, r);
      var defs := PopDataDefinitions(r);
      source := source[r := d.body];
      ghost var s2 := Now();
      Entering(c, s, s1, s2, x, r, d, at, n, open, own);
      out := DataDef(r, defs, r + 1, d.body, START, |c.text.groups|, open + {r}, true);
      GrowsRegistry(s2, Now(), r, r + 1, r + Size(d));
      Leaving(c, s, s2, Now(), x, r, d, at, n, open, own, out);
    }

    method AddUses(x: Ref, r: Ref, ghost d: Def, ghost at: Spot, ghost n: nat, ghost open: set<Ref>, ghost own: bool)
      returns (more: bool, out: Outcome)
      requires Valid() && PendingOne(c, Now(), x, r, d) && d.Uses?
      requires Clean(c.text) ==> ItemReady(c.text, Now(), x, d, at, n, open, own)
      modifies this
      ensures Valid()
      ensures Grows(old(Now()), Now(), x, r, r + Size(d))
      ensures AddsOne(c.text, old(Mem()), x, r, Mem(), more, out)
      ensures Clean(c.text) && out.Done? && more ==> ItemAdded(c.text, Now(), x, d, at, n, open)
      ensures Clean(c.text) && out.Done? && !more ==> Stopped(c.text, Now(), x, at, open, own)
      ensures Clean(c.text) && !out.Done? ==> !AlwaysSound(c.text, source[x])
      decreases Universe(c.text) - inProgressUses.Keys, Size(d), 1
    {
      hide Clean, Sane, Inv, Stopped, AlwaysSound, Grows, PendingOne, ItemReady, ItemAdded, ListReady, ListAdded,
           Pending;
      hide Adds, AddsOne, At, Offset, Refs, Size, Universe, Waits, Linked, SameHeads, LaidOut;
      more, out := false, Done;
      ghost var s, m := Now(), Mem();
      PendingFacts(c, s, x, r, d);
      UsesFacts(c, s, x, r, d);
      GrowsNothing(s, x, r);
      GrowsWider(s, s, x, r, r, r + Size(d));
      GroupingNames(c, s);
      UsesStops(c.text, m, x, r);
      var u := arena[r];
      if u.group !in groupings {
        out := NotFound(u.group);
        if Clean(c.text) {
          UsesUnknown(c, s, x, d, at, n, open, own);
        }
        return;
      }
      if u.id in inProgressUses {
        recursives := recursives + [(inProgressUses[u.id], x)];
        RegistryOnly(c, s, Now(), x, u.id, r, r + Size(d));
        if Clean(c.text) {
          UsesShared(c, s, Now(), x, d, at, n, open, own);
        }
        return;
      }
      out := AddClones(x, r, d, at, n, open, own);
      more := true;
    }

    /** Registers a `uses` that is met for the first time, and adds clones of its grouping's definitions. */
    method AddClones(x: Ref, r: Ref, ghost d: Def, ghost at: Spot, ghost n: nat, ghost open: set<Ref>, ghost own: bool)
      returns (out: Outcome)
      requires Valid() && PendingOne(c, Now(), x, r, d) && d.Uses? && d.id !in inProgressUses && d.group in groupings
      requires Clean(c.text) ==> ItemReady(c.text, Now(), x, d, at, n, open, own)
      modifies this
      ensures Valid()
      ensures Grows(old(Now()), Now(), x, r, r + Size(d)) && x in source
      ensures AddsOne(c.text, old(Mem()), x, r, Mem(), true, out)
      ensures Clean(c.text) && out.Done? ==> ItemAdded(c.text, Now(), x, d, at, n, open)
      ensures Clean(c.text) && !out.Done? ==> !AlwaysSound(c.text, source[x])
      decreases Universe(c.text) - inProgressUses.Keys, Size(d), 0
    {
      hide Clean, Sane, Inv, Stopped, AlwaysSound, Grows, PendingOne, ItemReady, ItemAdded, ListReady, ListAdded,
           Pending;
      hide Adds, AddsOne, At, Offset, Refs, Size, Universe, Linked, SameHeads, LaidOut;
      ghost var s, m := Now(), Mem();
      PendingFacts(c, s, x, r, d);
      GroupingCells(c, s, d.group);
      var u := arena[r];
      inProgressUses := inProgressUses[u.id := x];
      var groupDefs := CloneDefs(groupings[u.group], c.base[u.group], c.text.groups[u.group]);
      ghost var s1, m1 := Now(), Mem();
      Cloning(c, s, s1, x, r, d, at, n, open, own);
      assert u.id in Universe(c.text) - s.inProgress.Keys && u.id in inProgressUses;
      out := DataDef(x, groupDefs, |s.arena|, c.text.groups[u.group], Spot(at.defs, at.ids + 1),
                     if n > 0 then n - 1 else 0, open, false);
      UsesGoesOn(c.text, m, x, r, m1, Mem(), out);
      GrowsRegistry(s1, Now(), x, |s.arena|, |s1.arena|);
      ClonesAdded(c, s, s1, Now(), x, r, d, at, n, open, out);
    }

    // ---------- tying the knots ----------

    /** Gives a duplicate the definitions of its master. */
    method FillInOne(m: Ref, d: Ref) returns (out: Outcome)
      requires Linked(arena) && m < |arena| && d < |arena| && arena[m].NodeCell? && arena[d].NodeCell?
      modifies this`arena
      ensures Linked(arena) && SameHeads(old(arena), arena) && |arena| == |old(arena)|
      ensures forall r :: 0 <= r < |arena| && r != d ==> arena[r] == old(arena)[r]
      ensures out.Done? ==> arena == Fill(old(arena), (m, d))
      ensures out.Done? <==> Fits(old(arena), (m, d))
    {
      hide Fill, Fits, NamesDiffer, CellName, Linked, SameHeads;
      out := Done;
      ghost var a := arena;
      DiffersNone(a);
      var _ := PopDataDefinitions(d);
      arena := arena[d := arena[d].(recursive := true)];
      var defs := arena[m].defs;
      DefsLinked(a, m);
      Refilled(a, arena, d, []);
      for j := 0 to |defs|
        invariant |arena| == |a| && Linked(arena) && SameHeads(a, arena)
        invariant forall r :: 0 <= r < |arena| && r != d ==> arena[r] == a[r]
        invariant arena[d] == a[d].(defs := defs[..j], recursive := true)
        invariant NamesDiffer(a, defs[..j])
      {
        ghost var b := arena;
        var added := AddDataDefinition(d, defs[j]);
        DiffersOn(a, b, d, defs, j);
        if !added {
          out := Conflict(CellName(arena[defs[j]]));
          DoesNotFit(a, m, d, defs, j);
          return;
        }
        Refilled(a, arena, d, defs[..j + 1]);
      }
      assert defs[..|defs|] == defs;
      FilledOne(a, arena, m, d);
    }

    method FillInRecursiveDefs() returns (out: Outcome)
      requires Valid()
      requires Clean(c.text) ==> Inv(c.text, Now(), {})
      modifies this`arena
      ensures Linked(arena) && SameHeads(old(arena), arena) && |arena| == |old(arena)|
      ensures forall r :: 0 <= r < c.floor ==> arena[r] == old(arena)[r]
      ensures exists a :: Fills(old(arena), recursives, a, out.Done?) && (out.Done? ==> a == arena)
      ensures Clean(c.text) ==> out.Done? && Filled(c.text, old(Now()), Now(), |recursives|)
    {
      hide Clean, Inv, Sane, Filled, FillsOn, Fills, Fill, Fits, SameHeads, Linked, Universe, GroupingsIntact, Refs, At,
           Size;
      FillFirst(c, Now());
      out := Done;
      ghost var s := Now();
      if Clean(c.text) {
        FillStart(c, s);
      }
      FillsStart(arena, recursives);
      for k := 0 to |recursives|
        invariant out.Done?
        invariant Linked(arena) && SameHeads(s.arena, arena) && |arena| == |s.arena|
        invariant forall r :: 0 <= r < c.floor ==> arena[r] == s.arena[r]
        invariant FillsOn(s.arena, recursives, arena, k)
        invariant Clean(c.text) ==> Filled(c.text, s, Now(), k)
      {
        ghost var s' := Now();
        var (m, d) := recursives[k];
        FillCells(c, s, arena, k);
        FillsNext(s.arena, recursives, arena, k);
        if Clean(c.text) {
          FillIsQuiet(c, s, s', k);
        }
        out := FillInOne(m, d);
        FillHeads(s.arena, s'.arena, arena);
        if !out.Done? {
          assert Fills(s.arena, recursives, arena, false);
          return;
        }
        if Clean(c.text) {
          FillStep(c, s, s', Now(), k);
        }
      }
      FillsEnd(s.arena, recursives, arena);
    }

    /** Resolves the module at `root`. */
    method Resolve(root: Ref, ghost kind: Kind, ghost ident: string) returns (out: Outcome)
      requires Valid() && Initial(c, Now(), root, kind, ident)
      modifies this
      ensures GroupingsIntact(c, arena)
      ensures exists m' :: Resolves(c.text, old(Mem()), root, m', out) && (out.Done? ==> m' == Mem())
      ensures Clean(c.text) ==> (out.Done? <==> AlwaysSound(c.text, c.text.main))
      ensures Clean(c.text) && out.Done? ==> Resolved(c.text, Now(), root, kind, ident)
    {
      hide Clean, Inv, Sane, Filled, AlwaysSound, Resolved, ListReady, Pending, Grows, Adds, Fills, Resolves;
      hide Universe, GroupingsIntact, Refs, Size, Linked, SameHeads, LaidOut, LaidOutAll, Offset, IdsOf;
      ghost var s := Now();
      InitialFacts(c, s, root, kind, ident);
      var defs := PopDataDefinitions(root);
      source := map[root := c.text.main];
      StartModule(c, s, Now(), root, kind, ident);
      ghost var s1 := Now();
      out := DataDef(root, defs, root + 1, c.text.main, START, |c.text.groups|, {root}, true);
      GrowsRegistry(s1, Now(), root, root + 1, At(root + 1, c.text.main, |c.text.main|));
      GrowsHead(s1, Now(), root, root + 1, At(root + 1, c.text.main, |c.text.main|));
      ModuleGroupings(c, Now(), arena);
      if !out.Done? {
        ResolvesFails(c.text, old(Mem()), root, Mem(), out);
        assert Resolves(c.text, old(Mem()), root, Mem(), out);
        return;
      }
      ghost var s2, m1 := Now(), Mem();
      assert {root} - {root} == {};
      out := FillInRecursiveDefs();
      ghost var a :| Fills(m1.arena, recursives, a, out.Done?) && (out.Done? ==> a == arena);
      ResolvesFills(c.text, old(Mem()), root, m1, a, out);
      assert Resolves(c.text, old(Mem()), root, m1.(arena := a), out) && (out.Done? ==> m1.(arena := a) == Mem());
      ModuleGroupings(c, s2, arena);
      if Clean(c.text) {
        ResolvedAfterFill(c, s2, Now(), root, kind, ident);
      }
    }
  }
}
