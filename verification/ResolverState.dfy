/** Snapshots of the resolver, what a run may change, and what it keeps whatever the text is like. */
module ResolverState {
  import opened SchemaText
  import opened DefinitionArena
  import opened ResolverRun

  /**
    A snapshot of the resolver.  `source` is bookkeeping of the proof: the definition list each opened
    container, list or module was read from.
  */
  datatype State = State(
    arena: seq<Cell>,
    source: map<Ref, seq<Def>>,
    inProgress: map<nat, Ref>,
    recursives: seq<(Ref, Ref)>)

  // ---------- how a run may change the state ----------

  ghost predicate SameHead(c: Cell, d: Cell) {
    if c.NodeCell? then d.NodeCell? && c.kind == d.kind && c.ident == d.ident else c == d
  }

  ghost predicate SameHeads(a: seq<Cell>, b: seq<Cell>) {
    |a| <= |b| && forall r :: 0 <= r < |a| ==> SameHead(a[r], b[r])
  }

  /** Work on node `x` from the untouched cells `lo .. hi` touches nothing else that was there. */
  ghost predicate Grows(s: State, t: State, x: Ref, lo: Ref, hi: Ref) {
    && SameHeads(s.arena, t.arena)
    && (forall r :: 0 <= r < |s.arena| && r != x && !(lo <= r < hi) ==> t.arena[r] == s.arena[r])
    && (forall y :: y in s.source ==> y in t.source && t.source[y] == s.source[y])
    && (forall y :: y in t.source ==> y in s.source || lo <= y < hi || |s.arena| <= y)
    && (forall u :: u in s.inProgress ==> u in t.inProgress && t.inProgress[u] == s.inProgress[u])
    && (forall u :: u in t.inProgress ==> u in s.inProgress || t.inProgress[u] == x || t.inProgress[u] !in s.source)
    && |s.recursives| <= |t.recursives|
    && (forall j :: 0 <= j < |s.recursives| ==> t.recursives[j] == s.recursives[j])
    && (forall j :: |s.recursives| <= j < |t.recursives| ==> t.recursives[j].1 == x || t.recursives[j].1 !in s.source)
  }

  lemma GrowsTrans(s: State, t: State, u: State, x: Ref, l1: Ref, h1: Ref, y: Ref, l2: Ref, h2: Ref, lo: Ref, hi: Ref)
    requires Grows(s, t, x, l1, h1) && Grows(t, u, y, l2, h2)
    requires lo <= l1 && h1 <= hi
    requires y == x || lo <= y < hi
    requires y == x || y !in s.source
    requires (lo <= l2 && h2 <= hi) || |s.arena| <= l2
    ensures Grows(s, u, x, lo, hi)
  {
    forall r | 0 <= r < |s.arena| ensures SameHead(s.arena[r], u.arena[r]) {
      assert SameHead(s.arena[r], t.arena[r]) && SameHead(t.arena[r], u.arena[r]);
    }
  }

  lemma GrowsOn(s: State, t: State, u: State, x: Ref, lo: Ref, mid: Ref, hi: Ref)
    requires Grows(s, t, x, lo, mid) && Grows(t, u, x, mid, hi) && lo <= mid <= hi
    ensures Grows(s, u, x, lo, hi)
  {
    GrowsTrans(s, t, u, x, lo, mid, x, mid, hi, lo, hi);
  }

  lemma GrowsNothing(s: State, x: Ref, lo: Ref)
    ensures Grows(s, s, x, lo, lo)
  {
  }

  lemma GrowsRegistry(s: State, t: State, x: Ref, lo: Ref, hi: Ref)
    requires Grows(s, t, x, lo, hi)
    ensures s.inProgress.Keys <= t.inProgress.Keys
    ensures forall y :: y in s.source ==> y in t.source && t.source[y] == s.source[y]
  {
  }

  lemma GrowsWider(s: State, t: State, x: Ref, lo: Ref, hi: Ref, hi': Ref)
    requires Grows(s, t, x, lo, hi) && hi <= hi'
    ensures Grows(s, t, x, lo, hi')
  {
  }

  // ---------- invariants of every run ----------

  ghost predicate Linked(a: seq<Cell>) {
    forall r, i :: 0 <= r < |a| && a[r].NodeCell? && 0 <= i < |a[r].defs| ==> a[r].defs[i] < |a|
  }

  /** Containment goes up in the arena, so it cannot be circular. */
  ghost predicate Forward(a: seq<Cell>) {
    forall r, i :: 0 <= r < |a| && a[r].NodeCell? && 0 <= i < |a[r].defs| ==> r < a[r].defs[i]
  }

  ghost predicate Unmarked(a: seq<Cell>) {
    forall r :: 0 <= r < |a| && a[r].NodeCell? ==> !a[r].recursive
  }

  ghost predicate Opened(s: State, floor: nat) {
    forall x :: x in s.source ==> floor <= x < |s.arena| && s.arena[x].NodeCell?
  }

  ghost predicate Tracked(s: State) {
    && (forall u :: u in s.inProgress ==> s.inProgress[u] in s.source)
    && (forall k :: 0 <= k < |s.recursives| ==> s.recursives[k].0 in s.source && s.recursives[k].1 in s.source)
  }

  /** The definitions of an opened node have distinct names, as its name index requires. */
  ghost predicate SiblingsDiffer(a: seq<Cell>, x: Ref)
    requires Linked(a) && x < |a| && a[x].NodeCell?
  {
    NamesDiffer(a, a[x].defs)
  }

  // ---------- sane arenas ----------

  /** The schema being resolved, and where its groupings are kept: in the cells below `floor`. */
  datatype Config = Config(text: Text, base: map<string, Ref>, floor: nat)

  ghost predicate GroupingsIntact(c: Config, a: seq<Cell>) {
    && c.floor <= |a|
    && c.text.groups.Keys == c.base.Keys
    && forall g :: g in c.base ==>
         At(c.base[g], c.text.groups[g], |c.text.groups[g]|) <= c.floor && LaidOutAll(a, c.base[g], c.text.groups[g])
  }

  ghost predicate Sane(c: Config, s: State) {
    && GroupingsIntact(c, s.arena)
    && Linked(s.arena) && Forward(s.arena) && Unmarked(s.arena)
    && Opened(s, c.floor) && Tracked(s)
    && forall x :: x in s.source ==> SiblingsDiffer(s.arena, x)
  }

  /** What a step expects of the untouched definitions `ds` that it adds to `x`. */
  ghost predicate Pending(c: Config, s: State, x: Ref, lo: Ref, ds: seq<Def>) {
    && x in s.source && x < lo && c.floor <= lo
    && LaidOutAll(s.arena, lo, ds)
    && (forall y :: y in s.source ==> !(lo <= y < At(lo, ds, |ds|)))
    && IdsOf(ds) <= Universe(c.text)
  }

  lemma GroupingsKeep(c: Config, a: seq<Cell>, b: seq<Cell>)
    requires GroupingsIntact(c, a)
    requires |a| <= |b| && forall k :: 0 <= k < c.floor ==> a[k] == b[k]
    ensures GroupingsIntact(c, b)
  {
    forall g | g in c.base ensures LaidOutAll(b, c.base[g], c.text.groups[g]) {
      LaidOutAllFrame(a, b, c.base[g], c.text.groups[g]);
    }
  }

  lemma {:induction false} LaidOutIsLinked(a: seq<Cell>, lo: Ref, ds: seq<Def>, r: Ref)
    requires LaidOutAll(a, lo, ds) && lo <= r < At(lo, ds, |ds|)
    ensures a[r].NodeCell? ==> !a[r].recursive && forall i :: 0 <= i < |a[r].defs| ==> r < a[r].defs[i] < |a|
    decreases ds
  {
    var i := Locate(lo, ds, r, |ds|);
    assert LaidOut(a, At(lo, ds, i), ds[i]);
    if ds[i].Node? {
      var body := ds[i].body;
      if r == At(lo, ds, i) {
        forall j | 0 <= j < |body| ensures r < a[r].defs[j] < |a| {
          assert LaidOutAll(a, r + 1, body) && a[r].defs == Refs(r + 1, body);
          assert a[r].defs[j] == At(r + 1, body, j);
          OffsetMonotone(body, j, |body|);
        }
      } else {
        LaidOutIsLinked(a, At(lo, ds, i) + 1, body, r);
      }
    }
  }

  lemma {:induction false} Locate(lo: Ref, ds: seq<Def>, r: Ref, n: nat) returns (i: nat)
    requires n <= |ds| && lo <= r < At(lo, ds, n)
    ensures i < n && At(lo, ds, i) <= r < At(lo, ds, i) + Size(ds[i])
  {
    if r >= At(lo, ds, n - 1) {
      i := n - 1;
    } else {
      i := Locate(lo, ds, r, n - 1);
    }
  }

  lemma SaneAfterClone(c: Config, s: State, s': State, ds: seq<Def>)
    requires Sane(c, s)
    requires Extends(s.arena, s'.arena) && s' == s.(arena := s'.arena)
    requires |s'.arena| == At(|s.arena|, ds, |ds|) && LaidOutAll(s'.arena, |s.arena|, ds)
    ensures Sane(c, s')
  {
    GroupingsKeep(c, s.arena, s'.arena);
    LinkedAfterClone(s.arena, s'.arena, ds);
    hide LaidOutAll, NamesDiffer, GroupingsIntact;
    forall x | x in s'.source ensures SiblingsDiffer(s'.arena, x) {
      assert SiblingsDiffer(s.arena, x);
      SameNames(s.arena, s'.arena, s.arena[x].defs);
    }
  }

  lemma SameNames(a: seq<Cell>, b: seq<Cell>, rs: seq<Ref>)
    requires Extends(a, b) && NamesDiffer(a, rs) && forall i :: 0 <= i < |rs| ==> rs[i] < |a|
    ensures NamesDiffer(b, rs)
  {
  }

  lemma LinkedAfterClone(a: seq<Cell>, b: seq<Cell>, ds: seq<Def>)
    requires Linked(a) && Forward(a) && Unmarked(a) && Extends(a, b)
    requires |b| == At(|a|, ds, |ds|) && LaidOutAll(b, |a|, ds)
    ensures Linked(b) && Forward(b) && Unmarked(b)
  {
    forall r | |a| <= r < |b| && b[r].NodeCell?
      ensures !b[r].recursive && forall i :: 0 <= i < |b[r].defs| ==> r < b[r].defs[i] < |b|
    {
      LaidOutIsLinked(b, |a|, ds, r);
    }
    hide LaidOutAll, At;
  }

  lemma SaneAfterAppend(c: Config, s: State, s': State, x: Ref, r: Ref)
    requires Sane(c, s)
    requires x in s.source && x < r < |s.arena| && c.floor <= r && r !in s.source
    requires forall i :: 0 <= i < |s.arena[x].defs| ==> CellName(s.arena[s.arena[x].defs[i]]) != CellName(s.arena[r])
    requires s' == s.(arena := s.arena[x := s.arena[x].(defs := s.arena[x].defs + [r])])
    ensures Sane(c, s')
  {
    GroupingsKeep(c, s.arena, s'.arena);
    assert Linked(s'.arena) && Forward(s'.arena);
    forall y | y in s'.source ensures SiblingsDiffer(s'.arena, y) {
      assert SiblingsDiffer(s.arena, y);
    }
  }

  lemma SaneAfterPop(c: Config, s: State, s': State, r: Ref, body: seq<Def>)
    requires Sane(c, s)
    requires c.floor <= r < |s.arena| && s.arena[r].NodeCell? && r !in s.source
    requires s' == s.(arena := s.arena[r := s.arena[r].(defs := [])], source := s.source[r := body])
    ensures Sane(c, s')
  {
    GroupingsKeep(c, s.arena, s'.arena);
    forall y | y in s'.source ensures SiblingsDiffer(s'.arena, y) {
      if y in s.source {
        assert SiblingsDiffer(s.arena, y);
      }
    }
  }

  ghost predicate PendingOne(c: Config, s: State, x: Ref, r: Ref, d: Def) {
    && x in s.source && x < r && c.floor <= r
    && LaidOut(s.arena, r, d)
    && (forall y :: y in s.source ==> !(r <= y < r + Size(d)))
    && IdsOfOne(d) <= Universe(c.text)
  }

  lemma AtStart(lo: Ref, ds: seq<Def>)
    ensures At(lo, ds, 0) == lo && |Refs(lo, ds)| == |ds|
  {
  }

  lemma RefsAt(lo: Ref, ds: seq<Def>, i: nat)
    requires i < |ds|
    ensures |Refs(lo, ds)| == |ds| && Refs(lo, ds)[i] == At(lo, ds, i)
  {
    hide At;
  }

  lemma PendingSource(c: Config, s: State, x: Ref, lo: Ref, ds: seq<Def>)
    requires Pending(c, s, x, lo, ds)
    ensures x in s.source
  {
    hide LaidOutAll;
  }

  lemma PendingPart(c: Config, s: State, s': State, x: Ref, lo: Ref, ds: seq<Def>, i: nat)
    requires Pending(c, s, x, lo, ds) && i < |ds|
    requires Grows(s, s', x, lo, At(lo, ds, i))
    ensures PendingOne(c, s', x, At(lo, ds, i), ds[i])
    ensures Size(ds[i]) <= Offset(ds, |ds|)
    ensures lo <= At(lo, ds, i)
    ensures At(lo, ds, i) + Size(ds[i]) == At(lo, ds, i + 1) <= At(lo, ds, |ds|) <= |s.arena|
  {
    OffsetMonotone(ds, i, |ds|);
    assert LaidOut(s.arena, At(lo, ds, i), ds[i]);
    LaidOutFrame(s.arena, s'.arena, At(lo, ds, i), ds[i]);
  }

  // ---------- the states within one step ----------

  /** `s'` is `s` with the untouched cell `r` added to the definitions of `x`. */
  ghost predicate Appended(s: State, s': State, x: Ref, r: Ref) {
    && x < r < |s.arena| && s.arena[x].NodeCell?
    && s' == s.(arena := s.arena[x := s.arena[x].(defs := s.arena[x].defs + [r])])
  }

  lemma AppendedFacts(s: State, s': State, x: Ref, r: Ref)
    requires Appended(s, s', x, r)
    ensures |s'.arena| == |s.arena| && s'.arena[r] == s.arena[r]
    ensures s'.source == s.source && s'.inProgress == s.inProgress
  {
  }

  /** `s'` is `s` with the definitions of the untouched cell `r`, of text `d`, popped. */
  ghost predicate Popped(s: State, s': State, r: Ref, d: Def) {
    && d.Node? && r < |s.arena| && s.arena[r].NodeCell?
    && s' == s.(arena := s.arena[r := s.arena[r].(defs := [])], source := s.source[r := d.body])
  }

  lemma PendingFacts(c: Config, s: State, x: Ref, r: Ref, d: Def)
    requires Sane(c, s) && PendingOne(c, s, x, r, d)
    ensures Linked(s.arena) && c.floor <= r && x in s.source && x < r < |s.arena| && s.arena[x].NodeCell?
    ensures r !in s.source
    ensures s.arena[r].UsesCell? <==> d.Uses?
    ensures s.arena[r].LeafCell? <==> d.Leaf?
    ensures d.Node? ==> s.arena[r].defs == Refs(r + 1, d.body)
    ensures d.Uses? ==> s.arena[r] == UsesCell(d.id, d.group)
  {
  }

  lemma GrowsAfterAppend(s: State, s': State, x: Ref, r: Ref, hi: Ref)
    requires Appended(s, s', x, r)
    ensures Grows(s, s', x, r, hi)
    ensures s'.source == s.source
  {
  }

  /** Popping an added container or list readies its own definitions. */
  lemma EnterNode(c: Config, s: State, s1: State, s2: State, x: Ref, r: Ref, d: Def)
    requires Sane(c, s) && PendingOne(c, s, x, r, d) && d.Node?
    requires Appended(s, s1, x, r) && Popped(s1, s2, r, d)
    ensures Pending(c, s2, r, r + 1, d.body)
    ensures Grows(s, s2, x, r, r + 1)
    ensures At(r + 1, d.body, |d.body|) == r + Size(d)
    ensures Offset(d.body, |d.body|) < Size(d)
  {
    LaidOutAllFrame(s.arena, s2.arena, r + 1, d.body);
  }

  ghost predicate IsUses(s: State, x: Ref, r: Ref, d: Def) {
    d.Uses? && x in s.source && x < r < |s.arena| && s.arena[r] == UsesCell(d.id, d.group)
  }

  lemma RegistryOnly(c: Config, s: State, s': State, x: Ref, u: nat, lo: Ref, hi: Ref)
    requires Sane(c, s) && u in s.inProgress && x in s.source
    requires s' == s.(recursives := s.recursives + [(s.inProgress[u], x)])
    ensures Sane(c, s') && Grows(s, s', x, lo, hi)
  {
    assert s.inProgress[u] in s.source;
  }

  lemma GroupingNames(c: Config, s: State)
    requires Sane(c, s)
    ensures c.text.groups.Keys == c.base.Keys
  {
  }

  lemma GroupingCells(c: Config, s: State, g: string)
    requires Sane(c, s) && g in c.base
    ensures g in c.text.groups && LaidOutAll(s.arena, c.base[g], c.text.groups[g])
  {
  }

  lemma UsesFacts(c: Config, s: State, x: Ref, r: Ref, d: Def)
    requires PendingOne(c, s, x, r, d) && d.Uses?
    ensures d.id in Universe(c.text)
  {
  }

  /** State `s` with the `uses` of text `d` registered to `x`, and a copy of its grouping in new cells. */
  ghost predicate Cloned(c: Config, s: State, s': State, x: Ref, d: Def) {
    && d.Uses? && d.id !in s.inProgress && d.group in c.text.groups
    && s' == s.(arena := s'.arena, inProgress := s.inProgress[d.id := x])
    && Extends(s.arena, s'.arena)
    && var g := c.text.groups[d.group];
       |s'.arena| == At(|s.arena|, g, |g|) && LaidOutAll(s'.arena, |s.arena|, g)
  }

  lemma ClonePending(c: Config, s: State, s': State, x: Ref, r: Ref, d: Def, hi: Ref)
    requires Sane(c, s) && IsUses(s, x, r, d) && Cloned(c, s, s', x, d)
    ensures Sane(c, s')
    ensures Pending(c, s', x, |s.arena|, c.text.groups[d.group])
    ensures Grows(s, s', x, r, hi)
  {
    hide LaidOutAll, At, IdsOf, Universe, Linked, Forward, Unmarked, SiblingsDiffer, GroupingsIntact;
    CloneSane(c, s, s', x, d);
    IdsOfGrouping(c.text, d.group);
  }

  lemma IdsOfGrouping(t: Text, g: string)
    requires g in t.groups
    ensures IdsOf(t.groups[g]) <= Universe(t)
  {
    hide IdsOf;
  }

  lemma CloneSane(c: Config, s: State, s': State, x: Ref, d: Def)
    requires Sane(c, s) && x in s.source && Cloned(c, s, s', x, d)
    ensures Sane(c, s')
  {
    SaneAfterClone(c, s, s'.(inProgress := s.inProgress), c.text.groups[d.group]);
    hide LaidOutAll, At, GroupingsIntact, SiblingsDiffer;
  }

  lemma GrowsHead(s: State, t: State, x: Ref, lo: Ref, hi: Ref)
    requires Grows(s, t, x, lo, hi) && x < |s.arena|
    ensures x < |t.arena| && SameHead(s.arena[x], t.arena[x])
  {
  }

  lemma ModuleGroupings(c: Config, s: State, a: seq<Cell>)
    requires Sane(c, s)
    requires |s.arena| <= |a| && forall k :: 0 <= k < c.floor ==> k < |s.arena| && a[k] == s.arena[k]
    ensures GroupingsIntact(c, a)
  {
    GroupingsKeep(c, s.arena, a);
  }

  /** A module before anything has been resolved. */
  ghost predicate Initial(c: Config, s: State, root: Ref, kind: Kind, ident: string) {
    && s.inProgress == map[] && s.recursives == [] && s.source == map[]
    && c.floor <= root
    && LaidOut(s.arena, root, Node(kind, ident, c.text.main))
  }

  lemma InitialFacts(c: Config, s: State, root: Ref, kind: Kind, ident: string)
    requires Initial(c, s, root, kind, ident)
    ensures root < |s.arena| && s.arena[root] == NodeCell(kind, ident, Refs(root + 1, c.text.main), false)
    ensures s.source == map[]
  {
  }
}
