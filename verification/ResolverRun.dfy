/** What the resolver does in memory, step by step and for every text, clean or not. */
module ResolverRun {
  import opened SchemaText
  import opened DefinitionArena

  datatype Outcome = Done | NotFound(group: string) | Conflict(ident: string)

  /** The definition objects and the two fields of the resolver. */
  datatype Memory = Memory(arena: seq<Cell>, inProgress: map<nat, Ref>, recursives: seq<(Ref, Ref)>)

  ghost predicate NamesDiffer(a: seq<Cell>, rs: seq<Ref>) {
    forall i, j :: 0 <= i < j < |rs| && rs[i] < |a| && rs[j] < |a| ==> CellName(a[rs[i]]) != CellName(a[rs[j]])
  }

  ghost predicate NameTaken(a: seq<Cell>, x: Ref, r: Ref)
    requires x < |a| && r < |a| && a[x].NodeCell?
  {
    exists i :: 0 <= i < |a[x].defs| && a[x].defs[i] < |a| && CellName(a[a[x].defs[i]]) == CellName(a[r])
  }

  ghost function Append(m: Memory, x: Ref, r: Ref): Memory
    requires x < |m.arena| && m.arena[x].NodeCell?
  {
    m.(arena := m.arena[x := m.arena[x].(defs := m.arena[x].defs + [r])])
  }

  ghost function Pop(m: Memory, x: Ref): Memory
    requires x < |m.arena| && m.arena[x].NodeCell?
  {
    m.(arena := m.arena[x := m.arena[x].(defs := [])])
  }

  /** The `uses` is registered to `x`, and the definitions of its grouping are copied to new cells. */
  ghost predicate Clones(t: Text, m: Memory, m': Memory, x: Ref, id: nat, group: string) {
    && group in t.groups && m' == m.(arena := m'.arena, inProgress := m.inProgress[id := x])
    && Extends(m.arena, m'.arena) && |m'.arena| == At(|m.arena|, t.groups[group], |t.groups[group]|)
    && LaidOutAll(m'.arena, |m.arena|, t.groups[group])
  }

  least predicate Adds(t: Text, m: Memory, x: Ref, rs: seq<Ref>, m': Memory, out: Outcome) {
    if rs == [] then m' == m && out.Done?
    else exists m1, more, o :: AddsOne(t, m, x, rs[0], m1, more, o) &&
           if o.Done? && more then Adds(t, m1, x, rs[1..], m', out) else m' == m1 && out == o
  }

  least predicate AddsOne(t: Text, m: Memory, x: Ref, r: Ref, m': Memory, more: bool, out: Outcome) {
    && x < |m.arena| && r < |m.arena| && x != r && m.arena[x].NodeCell?
    && match m.arena[r]
       case UsesCell(id, group) =>
         if group !in t.groups then m' == m && !more && out == NotFound(group)
         else if id in m.inProgress then
           m' == m.(recursives := m.recursives + [(m.inProgress[id], x)]) && !more && out.Done?
         else
           more && exists m1 :: Clones(t, m, m1, x, id, group)
                                && Adds(t, m1, x, Refs(|m.arena|, t.groups[group]), m', out)
       case LeafCell(ident) =>
         more && if NameTaken(m.arena, x, r) then m' == m && out == Conflict(ident)
           else m' == Append(m, x, r) && out.Done?
       case NodeCell(_, ident, defs, _) =>
         more && if NameTaken(m.arena, x, r) then m' == m && out == Conflict(ident)
                 else Adds(t, Pop(Append(m, x, r), r), r, defs, m', out)
  }

  lemma UsesStops(t: Text, m: Memory, x: Ref, r: Ref)
    requires x < |m.arena| && r < |m.arena| && x != r && m.arena[x].NodeCell? && m.arena[r].UsesCell?
    ensures m.arena[r].group !in t.groups ==> AddsOne(t, m, x, r, m, false, NotFound(m.arena[r].group))
    ensures m.arena[r].group in t.groups && m.arena[r].id in m.inProgress ==>
              AddsOne(t, m, x, r, m.(recursives := m.recursives + [(m.inProgress[m.arena[r].id], x)]), false, Done)
  {
  }

  lemma UsesGoesOn(t: Text, m: Memory, x: Ref, r: Ref, m1: Memory, m': Memory, out: Outcome)
    requires x < |m.arena| && r < |m.arena| && x != r && m.arena[x].NodeCell? && m.arena[r].UsesCell?
    requires m.arena[r].group in t.groups && m.arena[r].id !in m.inProgress
    requires Clones(t, m, m1, x, m.arena[r].id, m.arena[r].group)
    requires Adds(t, m1, x, Refs(|m.arena|, t.groups[m.arena[r].group]), m', out)
    ensures AddsOne(t, m, x, r, m', true, out)
  {
  }

  /** Whatever comes of the rest comes of the whole. */
  ghost predicate Onward(t: Text, m0: Memory, x: Ref, all: seq<Ref>, m: Memory, rest: seq<Ref>) {
    forall m', out :: Adds(t, m, x, rest, m', out) ==> Adds(t, m0, x, all, m', out)
  }

  lemma OnwardStarts(t: Text, m: Memory, x: Ref, all: seq<Ref>)
    ensures Onward(t, m, x, all, m, all[0..])
  {
    assert all[0..] == all;
  }

  lemma OnwardNext(t: Text, m0: Memory, x: Ref, all: seq<Ref>, m: Memory, i: nat, m1: Memory)
    requires i < |all| && Onward(t, m0, x, all, m, all[i..]) && AddsOne(t, m, x, all[i], m1, true, Done)
    ensures Onward(t, m0, x, all, m1, all[i + 1..])
  {
    assert all[i..][0] == all[i] && all[i..][1..] == all[i + 1..];
    forall m', out | Adds(t, m1, x, all[i + 1..], m', out)
      ensures Adds(t, m0, x, all, m', out)
    {
      assert Adds(t, m, x, all[i..], m', out);
    }
  }

  lemma OnwardStops(t: Text, m0: Memory, x: Ref, all: seq<Ref>, m: Memory, i: nat, m1: Memory, more: bool, out: Outcome)
    requires i < |all| && Onward(t, m0, x, all, m, all[i..]) && AddsOne(t, m, x, all[i], m1, more, out)
    requires !(more && out.Done?)
    ensures Adds(t, m0, x, all, m1, out)
  {
    assert all[i..][0] == all[i];
    assert Adds(t, m, x, all[i..], m1, out);
  }

  lemma OnwardEnds(t: Text, m0: Memory, x: Ref, all: seq<Ref>, m: Memory)
    requires Onward(t, m0, x, all, m, all[|all|..])
    ensures Adds(t, m0, x, all, m, Done)
  {
    assert Adds(t, m, x, all[|all|..], m, Done);
  }

  // ---------- what a run must have done ----------

  lemma AddsEnd(t: Text, m: Memory, x: Ref, m': Memory, out: Outcome)
    requires Adds(t, m, x, [], m', out)
    ensures m' == m && out.Done?
  {
  }

  lemma AddsLeaf(t: Text, m: Memory, x: Ref, r: Ref, rs: seq<Ref>, m': Memory, out: Outcome)
    requires Adds(t, m, x, [r] + rs, m', out)
    requires x < |m.arena| && r < |m.arena| && m.arena[x].NodeCell? && m.arena[r].LeafCell? && !NameTaken(m.arena, x, r)
    ensures Adds(t, Append(m, x, r), x, rs, m', out)
  {
    assert ([r] + rs)[1..] == rs;
  }

  lemma AddsNode(t: Text, m: Memory, x: Ref, r: Ref, rs: seq<Ref>, m': Memory, out: Outcome)
    returns (m1: Memory, o: Outcome)
    requires Adds(t, m, x, [r] + rs, m', out)
    requires x < |m.arena| && r < |m.arena| && m.arena[x].NodeCell? && m.arena[r].NodeCell? && !NameTaken(m.arena, x, r)
    ensures x != r && Adds(t, Pop(Append(m, x, r), r), r, m.arena[r].defs, m1, o)
    ensures if o.Done? then Adds(t, m1, x, rs, m', out) else m' == m1 && out == o
  {
    var more: bool;
    m1, more, o :| AddsOne(t, m, x, r, m1, more, o)
                   && if o.Done? && more then Adds(t, m1, x, ([r] + rs)[1..], m', out) else m' == m1 && out == o;
    assert ([r] + rs)[1..] == rs;
  }

  lemma AddsShared(t: Text, m: Memory, x: Ref, r: Ref, rs: seq<Ref>, m': Memory, out: Outcome)
    requires Adds(t, m, x, [r] + rs, m', out)
    requires r < |m.arena| && m.arena[r].UsesCell? && m.arena[r].group in t.groups && m.arena[r].id in m.inProgress
    ensures m' == m.(recursives := m.recursives + [(m.inProgress[m.arena[r].id], x)]) && out.Done?
  {
  }

  lemma AddsCloned(t: Text, m: Memory, x: Ref, r: Ref, rs: seq<Ref>, m': Memory, out: Outcome)
    returns (m1: Memory, m2: Memory, o: Outcome)
    requires Adds(t, m, x, [r] + rs, m', out)
    requires r < |m.arena| && m.arena[r].UsesCell? && m.arena[r].group in t.groups && m.arena[r].id !in m.inProgress
    ensures Clones(t, m, m1, x, m.arena[r].id, m.arena[r].group)
    ensures Adds(t, m1, x, Refs(|m.arena|, t.groups[m.arena[r].group]), m2, o)
    ensures if o.Done? then Adds(t, m2, x, rs, m', out) else m' == m2 && out == o
  {
    var more: bool;
    m2, more, o :| AddsOne(t, m, x, r, m2, more, o)
                   && if o.Done? && more then Adds(t, m2, x, ([r] + rs)[1..], m', out) else m' == m2 && out == o;
    assert ([r] + rs)[1..] == rs;
    m1 :| Clones(t, m, m1, x, m.arena[r].id, m.arena[r].group)
          && Adds(t, m1, x, Refs(|m.arena|, t.groups[m.arena[r].group]), m2, o);
  }

  /** A container whose only definition is a `uses` seen before: it is added empty, and recorded as a duplicate. */
  lemma AddsDuplicate(t: Text, m: Memory, x: Ref, r: Ref, q: Ref, rs: seq<Ref>, m': Memory, out: Outcome)
    requires Adds(t, m, x, [r] + rs, m', out) && x < r < q < |m.arena| && m.arena[x].NodeCell? && m.arena[r].NodeCell?
    requires !NameTaken(m.arena, x, r) && m.arena[r].defs == [q] && m.arena[q].UsesCell?
    requires m.arena[q].group in t.groups && m.arena[q].id in m.inProgress
    ensures var p := Pop(Append(m, x, r), r);
            Adds(t, p.(recursives := p.recursives + [(m.inProgress[m.arena[q].id], r)]), x, rs, m', out)
  {
    var p := Pop(Append(m, x, r), r);
    var m1, o := AddsNode(t, m, x, r, rs, m', out);
    assert [q] == [q] + [];
    hide Adds, AddsOne;
    AddsShared(t, p, r, q, [], m1, o);
  }

  // ---------- tying the knots ----------

  ghost predicate Fillable(a: seq<Cell>, pair: (Ref, Ref)) {
    pair.0 < |a| && pair.1 < |a| && a[pair.0].NodeCell? && a[pair.1].NodeCell?
  }

  ghost function Fill(a: seq<Cell>, pair: (Ref, Ref)): seq<Cell>
    requires Fillable(a, pair)
  {
    var (m, d) := pair;
    a[d := a[d].(defs := if m == d then [] else a[m].defs, recursive := true)]
  }

  /** The definitions of a master go into the empty duplicate without a conflict. */
  ghost predicate Fits(a: seq<Cell>, pair: (Ref, Ref))
    requires Fillable(a, pair)
  {
    pair.0 == pair.1 || NamesDiffer(a, a[pair.0].defs)
  }

  ghost predicate Fills(a: seq<Cell>, pairs: seq<(Ref, Ref)>, a': seq<Cell>, done: bool)
    decreases |pairs|
  {
    if pairs == [] then a' == a && done
    else Fillable(a, pairs[0]) && if Fits(a, pairs[0]) then Fills(Fill(a, pairs[0]), pairs[1..], a', done) else !done
  }

  /** Whatever comes of the pairs that are left comes of all of them. */
  ghost predicate FillsOn(a0: seq<Cell>, pairs: seq<(Ref, Ref)>, a: seq<Cell>, k: nat)
    requires k <= |pairs|
  {
    forall a', done :: Fills(a, pairs[k..], a', done) ==> Fills(a0, pairs, a', done)
  }

  lemma FillsStart(a: seq<Cell>, pairs: seq<(Ref, Ref)>)
    ensures FillsOn(a, pairs, a, 0)
  {
    assert pairs[0..] == pairs;
  }

  lemma FillsNext(a0: seq<Cell>, pairs: seq<(Ref, Ref)>, a: seq<Cell>, k: nat)
    requires k < |pairs| && FillsOn(a0, pairs, a, k) && Fillable(a, pairs[k])
    ensures Fits(a, pairs[k]) ==> FillsOn(a0, pairs, Fill(a, pairs[k]), k + 1)
    ensures !Fits(a, pairs[k]) ==> forall a' :: Fills(a0, pairs, a', false)
  {
    var rest := pairs[k..];
    assert rest[0] == pairs[k] && rest[1..] == pairs[k + 1..];
    if Fits(a, pairs[k]) {
      forall a', done | Fills(Fill(a, pairs[k]), pairs[k + 1..], a', done)
        ensures Fills(a0, pairs, a', done)
      {
        assert Fills(a, rest, a', done);
      }
    } else {
      forall a' ensures Fills(a0, pairs, a', false) {
        assert Fills(a, rest, a', false);
      }
    }
  }

  lemma FillsEnd(a0: seq<Cell>, pairs: seq<(Ref, Ref)>, a: seq<Cell>)
    requires FillsOn(a0, pairs, a, |pairs|)
    ensures Fills(a0, pairs, a, true)
  {
    assert Fills(a, pairs[|pairs|..], a, true);
  }

  /** A whole run of the resolver for the module at `root`. */
  ghost predicate Resolves(t: Text, m: Memory, root: Ref, m': Memory, out: Outcome) {
    && root < |m.arena| && m.arena[root].NodeCell?
    && exists m1, o :: Adds(t, Pop(m, root), root, m.arena[root].defs, m1, o) &&
         if o.Done? then m' == m1.(arena := m'.arena) && Fills(m1.arena, m1.recursives, m'.arena, out.Done?)
         else m' == m1 && out == o
  }

  lemma ResolvesFails(t: Text, m: Memory, root: Ref, m': Memory, out: Outcome)
    requires root < |m.arena| && m.arena[root].NodeCell? && !out.Done?
    requires Adds(t, Pop(m, root), root, m.arena[root].defs, m', out)
    ensures Resolves(t, m, root, m', out)
  {
  }

  lemma ResolvesFills(t: Text, m: Memory, root: Ref, m1: Memory, a: seq<Cell>, out: Outcome)
    requires root < |m.arena| && m.arena[root].NodeCell?
    requires Adds(t, Pop(m, root), root, m.arena[root].defs, m1, Done) && Fills(m1.arena, m1.recursives, a, out.Done?)
    ensures Resolves(t, m, root, m1.(arena := a), out)
  {
  }
}
