/** The graph that the resolver leaves: tying the knots completes every node, and then the graph is the expansion. */
module ResolverGraph {
  import opened SchemaText
  import opened DefinitionArena
  import opened ResolverRun
  import opened ResolverState
  import opened ResolverSharing

  ghost function Unfold(a: seq<Cell>, r: Ref, n: nat): Tree
    requires Linked(a) && r < |a|
    decreases n
  {
    match a[r]
    case LeafCell(ident) => LeafTree(ident)
    case UsesCell(_, group) => LeafTree(group)
    case NodeCell(kind, ident, defs, _) =>
      if n == 0 then Cut(kind, ident)
      else NodeTree(kind, ident, seq(|defs|, i requires 0 <= i < |defs| => Unfold(a, defs[i], n - 1)))
  }

  ghost predicate AllComplete(t: Text, s: State) {
    forall x :: x in s.source ==> Complete(t, s, x)
  }

  /** A graph whose nodes are all complete unfolds, to every depth, like the text. */
  lemma {:induction false} UnfoldIsExpand(t: Text, s: State, x: Ref, n: nat)
    requires AllComplete(t, s) && Linked(s.arena)
    requires x in s.source && x < |s.arena| && s.arena[x].NodeCell?
    ensures Unfold(s.arena, x, n) == ExpandOne(t, Node(s.arena[x].kind, s.arena[x].ident, s.source[x]), n)
    decreases n
  {
    if n > 0 {
      var defs := s.arena[x].defs;
      var f := Flatten(t, s.source[x]);
      assert Complete(t, s, x);
      FlattenHasNoUses(t, s.source[x], |t.groups|);
      forall i | 0 <= i < |defs| ensures Unfold(s.arena, defs[i], n - 1) == ExpandOne(t, f[i], n - 1) {
        assert MatchOne(s, defs[i], f[i]);
        if f[i].Node? {
          UnfoldIsExpand(t, s, defs[i], n - 1);
        }
      }
    }
  }

  /** A complete graph without name conflicts witnesses that its text has none at any depth. */
  lemma {:induction false} CompleteIsSound(t: Text, s: State, x: Ref, n: nat)
    requires AllComplete(t, s) && Linked(s.arena)
    requires forall y :: y in s.source ==> y < |s.arena| && s.arena[y].NodeCell? && SiblingsDiffer(s.arena, y)
    requires x in s.source
    ensures Sound(t, s.source[x], n)
    decreases n
  {
    var defs := s.arena[x].defs;
    var f := Flatten(t, s.source[x]);
    assert Complete(t, s, x);
    forall i, j | 0 <= i < j < |f| ensures NameOf(f[i]) != NameOf(f[j]) {
      assert MatchOne(s, defs[i], f[i]) && MatchOne(s, defs[j], f[j]);
      assert SiblingsDiffer(s.arena, x);
    }
    if n > 0 {
      forall i | 0 <= i < |f| && f[i].Node? ensures Sound(t, f[i].body, n - 1) {
        assert MatchOne(s, defs[i], f[i]);
        CompleteIsSound(t, s, defs[i], n - 1);
      }
    }
  }

  // ---------- what a duplicate gets ----------

  lemma MatchesOne(s: State, r: Ref, d: Def, e: Def)
    requires MatchOne(s, r, d) && MatchOne(s, r, e)
    ensures d == e
  {
  }

  /**
    Whatever list a duplicate was read from: with a complete master it is right exactly if both flatten to the same.
  */
  lemma DuplicateIsRight(t: Text, s: State, m: Ref, d: Ref)
    requires Complete(t, s, m) && d in s.source && d < |s.arena| && s.arena[d].NodeCell?
    requires s.arena[d].defs == s.arena[m].defs
    ensures Complete(t, s, d) <==> Flatten(t, s.source[d]) == Flatten(t, s.source[m]) && UsesKnown(t, s.source[d])
  {
    var f, g := Flatten(t, s.source[d]), Flatten(t, s.source[m]);
    hide Flatten, UsesKnown, MatchOne;
    if Complete(t, s, d) {
      forall i | 0 <= i < |f| ensures f[i] == g[i] {
        MatchesOne(s, s.arena[d].defs[i], f[i], g[i]);
      }
    }
  }

  // ---------- tying the knots ----------

  ghost predicate PairAfter(s: State, k: nat, x: Ref) {
    exists j :: k <= j < |s.recursives| && s.recursives[j].1 == x
  }

  ghost predicate PairBefore(s: State, k: nat, x: Ref) {
    exists j :: 0 <= j < k && j < |s.recursives| && s.recursives[j].1 == x
  }

  /** The first `k` duplicates have been filled in; what no later pair fills in again is complete. */
  ghost predicate Filled(t: Text, s: State, s': State, k: nat) {
    && k <= |s.recursives| && s' == s.(arena := s'.arena) && |s'.arena| == |s.arena|
    && Linked(s'.arena) && SameHeads(s.arena, s'.arena)
    && (forall x :: x in s.source && !PairAfter(s, k, x) ==> Complete(t, s', x))
    && (forall x :: x in s.source ==>
          x < |s'.arena| && s'.arena[x].NodeCell? && NamesDiffer(s'.arena, s'.arena[x].defs))
    && (forall x :: 0 <= x < |s.arena| && s.arena[x].NodeCell? ==> Marked(s, s', k, x))
  }

  /** Exactly the duplicates are marked, and the others are as they were. */
  ghost predicate Marked(s: State, s': State, k: nat, x: Ref) {
    && x < |s.arena| && x < |s'.arena| && s'.arena[x].NodeCell?
    && (s'.arena[x].recursive <==> PairBefore(s, k, x))
    && (!s'.arena[x].recursive ==> s'.arena[x] == s.arena[x])
  }

  lemma FillFirst(c: Config, s: State)
    requires Sane(c, s)
    ensures Linked(s.arena) && SameHeads(s.arena, s.arena) && c.floor <= |s.arena|
  {
  }

  lemma FillStart(c: Config, s: State)
    requires Sane(c, s) && Inv(c.text, s, {})
    ensures Filled(c.text, s, s, 0)
  {
    forall x | x in s.source && !PairAfter(s, 0, x) ensures Complete(c.text, s, x) {
      assert !Duplicate(s, x);
    }
    hide Registry, Sharing, Complete, GroupingsIntact, NamesDiffer;
    forall x | 0 <= x < |s.arena| && s.arena[x].NodeCell? ensures Marked(s, s, 0, x) {}
    forall x | x in s.source ensures NamesDiffer(s.arena, s.arena[x].defs) {
      assert SiblingsDiffer(s.arena, x);
    }
  }

  lemma FillCells(c: Config, s: State, a: seq<Cell>, k: nat)
    requires Sane(c, s) && k < |s.recursives| && SameHeads(s.arena, a)
    ensures Fillable(a, s.recursives[k]) && c.floor <= s.recursives[k].1 < |s.arena|
  {
    var (m, d) := s.recursives[k];
    assert SameHead(s.arena[m], a[m]) && SameHead(s.arena[d], a[d]);
  }

  /** Filling in the next duplicate meets no name conflict. */
  lemma FillIsQuiet(c: Config, s: State, s': State, k: nat)
    requires Filled(c.text, s, s', k) && Inv(c.text, s, {}) && k < |s.recursives| && Fillable(s'.arena, s.recursives[k])
    ensures Fits(s'.arena, s.recursives[k])
  {
    MasterIsComplete(c.text, s, k);
    hide Inv, Complete, NamesDiffer, Linked, SameHeads, Alike;
  }

  /** It is complete then, as its master is: no later pair fills in that one again. */
  lemma FillStep(c: Config, s: State, s': State, s'': State, k: nat)
    requires Inv(c.text, s, {}) && k < |s.recursives| && Filled(c.text, s, s', k)
    requires Fillable(s'.arena, s.recursives[k]) && s'' == s'.(arena := Fill(s'.arena, s.recursives[k]))
    requires Linked(s''.arena) && SameHeads(s'.arena, s''.arena)
    ensures Filled(c.text, s, s'', k + 1)
  {
    var (m, d) := s.recursives[k];
    MasterIsComplete(c.text, s, k);
    FillHeads(s.arena, s'.arena, s''.arena);
    FillCompletes(c.text, s, s', s'', k);
    FillNames(c.text, s, s', s'', k);
    FillMarks(c.text, s, s', s'', k);
  }

  lemma FillHeads(a: seq<Cell>, b: seq<Cell>, c: seq<Cell>)
    requires SameHeads(a, b) && SameHeads(b, c)
    ensures SameHeads(a, c)
  {
    forall r | 0 <= r < |a| ensures SameHead(a[r], c[r]) {
      assert SameHead(a[r], b[r]) && SameHead(b[r], c[r]);
    }
  }

  lemma CompleteCopy(t: Text, s: State, s': State, m: Ref, d: Ref)
    requires Complete(t, s, m) && d in s.source && Alike(t, s.source[m], s.source[d])
    requires SameHeads(s.arena, s'.arena) && s'.source == s.source
    requires d < |s'.arena| && s'.arena[d].NodeCell? && s'.arena[d].defs == s.arena[m].defs
    ensures Complete(t, s', d)
  {
    hide Flatten, UsesKnown, SameHeads, MatchOne;
    forall i | 0 <= i < |s.arena[m].defs|
      ensures MatchOne(s', s.arena[m].defs[i], Flatten(t, s.source[d])[i])
    {
      MatchKeeps(s, s', s.arena[m].defs[i], Flatten(t, s.source[m])[i]);
    }
  }

  lemma FilledFacts(t: Text, s: State, s': State, k: nat)
    requires Filled(t, s, s', k)
    ensures k <= |s.recursives| && s'.source == s.source && s'.recursives == s.recursives && |s'.arena| == |s.arena|
            && SameHeads(s.arena, s'.arena)
  {
  }

  lemma FilledComplete(t: Text, s: State, s': State, k: nat, x: Ref)
    requires Filled(t, s, s', k) && x in s.source && !PairAfter(s, k, x)
    ensures Complete(t, s', x)
  {
  }

  lemma FilledNames(t: Text, s: State, s': State, k: nat, x: Ref)
    requires Filled(t, s, s', k) && x in s.source
    ensures x < |s'.arena| && s'.arena[x].NodeCell? && NamesDiffer(s'.arena, s'.arena[x].defs)
  {
  }

  lemma FillCell(a: seq<Cell>, m: Ref, d: Ref, x: Ref)
    requires Fillable(a, (m, d)) && m != d && x < |a| && a[x].NodeCell?
    ensures |Fill(a, (m, d))| == |a| && Fill(a, (m, d))[x].NodeCell?
    ensures Fill(a, (m, d))[x].defs == a[if x == d then m else x].defs
    ensures x != d ==> Fill(a, (m, d))[x] == a[x]
  {
  }

  lemma FillCompletes(t: Text, s: State, s': State, s'': State, k: nat)
    requires Inv(t, s, {}) && k < |s.recursives| && Filled(t, s, s', k)
    requires Fillable(s'.arena, s.recursives[k]) && s'' == s'.(arena := Fill(s'.arena, s.recursives[k]))
    requires SameHeads(s'.arena, s''.arena)
    ensures forall x :: x in s.source && !PairAfter(s, k + 1, x) ==> Complete(t, s'', x)
  {
    hide *;
    MasterIsComplete(t, s, k);
    FilledFacts(t, s, s', k);
    var (m, d) := s.recursives[k];
    NotAfter(s, k, m);
    FilledComplete(t, s, s', k, m);
    FilledNames(t, s, s', k, d);
    FillCell(s'.arena, m, d, d);
    forall x | x in s.source && !PairAfter(s, k + 1, x) ensures Complete(t, s'', x) {
      if x == d {
        CompleteCopy(t, s', s'', m, d);
      } else {
        OtherPairs(s, k, x);
        FilledComplete(t, s, s', k, x);
        FilledNames(t, s, s', k, x);
        FillCell(s'.arena, m, d, x);
        SourceSame(s', s'');
        CompleteKeeps(t, s', s'', x);
      }
    }
  }

  lemma SourceSame(s: State, s': State)
    requires s'.source == s.source
    ensures SourceKept(s, s')
  {
  }

  lemma NotAfter(s: State, k: nat, x: Ref)
    requires forall i :: k <= i < |s.recursives| ==> s.recursives[i].1 != x
    ensures !PairAfter(s, k, x)
  {
  }

  lemma OtherPairs(s: State, k: nat, x: Ref)
    requires k < |s.recursives| && s.recursives[k].1 != x && !PairAfter(s, k + 1, x)
    ensures !PairAfter(s, k, x)
  {
  }

  lemma FillNames(t: Text, s: State, s': State, s'': State, k: nat)
    requires Inv(t, s, {}) && k < |s.recursives| && Filled(t, s, s', k)
    requires Fillable(s'.arena, s.recursives[k]) && s'' == s'.(arena := Fill(s'.arena, s.recursives[k]))
    requires SameHeads(s'.arena, s''.arena)
    ensures forall x :: x in s.source ==>
              x < |s''.arena| && s''.arena[x].NodeCell? && NamesDiffer(s''.arena, s''.arena[x].defs)
  {
    hide *;
    MasterIsComplete(t, s, k);
    var (m, d) := s.recursives[k];
    forall x | x in s.source
      ensures x < |s''.arena| && s''.arena[x].NodeCell? && NamesDiffer(s''.arena, s''.arena[x].defs)
    {
      var y := if x == d then m else x;
      FilledNames(t, s, s', k, x);
      FilledNames(t, s, s', k, y);
      FillCell(s'.arena, m, d, x);
      NamesKeep(s'.arena, s''.arena, s'.arena[y].defs);
    }
  }

  lemma NamesKeep(a: seq<Cell>, b: seq<Cell>, rs: seq<Ref>)
    requires NamesDiffer(a, rs) && SameHeads(a, b) && |a| == |b|
    ensures NamesDiffer(b, rs)
  {
    forall i | 0 <= i < |rs| && rs[i] < |a| ensures CellName(a[rs[i]]) == CellName(b[rs[i]]) {
      assert SameHead(a[rs[i]], b[rs[i]]);
    }
  }

  lemma FillMarks(t: Text, s: State, s': State, s'': State, k: nat)
    requires k < |s.recursives| && Filled(t, s, s', k)
    requires Fillable(s'.arena, s.recursives[k]) && s'' == s'.(arena := Fill(s'.arena, s.recursives[k]))
    ensures forall x :: 0 <= x < |s.arena| && s.arena[x].NodeCell? ==> Marked(s, s'', k + 1, x)
  {
    hide Complete, SameHeads, NamesDiffer, Linked, PairAfter;
    forall x | 0 <= x < |s.arena| && s.arena[x].NodeCell? ensures Marked(s, s'', k + 1, x) {
      assert Marked(s, s', k, x);
      assert PairBefore(s, k + 1, x) <==> PairBefore(s, k, x) || x == s.recursives[k].1;
    }
  }

  /** Containment among nodes not marked recursive is not circular: walks that stop at marks end. */
  ghost predicate ForwardUnlessMarked(a: seq<Cell>) {
    forall r, i :: 0 <= r < |a| && a[r].NodeCell? && !a[r].recursive && 0 <= i < |a[r].defs| ==> r < a[r].defs[i]
  }

  lemma FilledIsForward(c: Config, s: State, s': State)
    requires Sane(c, s) && Filled(c.text, s, s', |s.recursives|)
    ensures ForwardUnlessMarked(s'.arena)
    ensures forall x :: 0 <= x < |s'.arena| && s'.arena[x].NodeCell? ==> (s'.arena[x].recursive <==> Duplicate(s', x))
  {
    hide Complete, NamesDiffer, GroupingsIntact, PairAfter;
    forall x | 0 <= x < |s'.arena| && s'.arena[x].NodeCell?
      ensures s'.arena[x].recursive <==> Duplicate(s', x)
      ensures !s'.arena[x].recursive ==> s'.arena[x] == s.arena[x]
    {
      assert SameHead(s.arena[x], s'.arena[x]);
      assert Marked(s, s', |s.recursives|, x);
    }
  }

  /**
    What resolving leaves in memory, for the module at `root`. Exactly the duplicates are marked recursive; a master
    that is one is so of an earlier pair, and none is if lists that meet the same `uses` are equal.
  */
  ghost predicate Resolved(t: Text, s: State, root: Ref, kind: Kind, ident: string) {
    && Linked(s.arena) && root < |s.arena|
    && (forall n: nat :: Unfold(s.arena, root, n) == ExpandOne(t, Node(kind, ident, t.main), n))
    && ForwardUnlessMarked(s.arena)
    && (forall x :: 0 <= x < |s.arena| && s.arena[x].NodeCell? ==> (s.arena[x].recursive <==> Duplicate(s, x)))
    && (forall j :: 0 <= j < |s.recursives| ==> PairOk(t, s, j))
  }

  ghost predicate PairOk(t: Text, s: State, j: nat)
    requires j < |s.recursives|
  {
    var (m, d) := s.recursives[j];
    && m < |s.arena| && d < |s.arena| && s.arena[m].NodeCell? && s.arena[d].NodeCell? && s.arena[d].recursive
    && (forall i :: j <= i < |s.recursives| ==> s.recursives[i].1 != m)
    && (OneList(t) ==> !s.arena[m].recursive)
  }

  lemma ResolvedAfterFill(c: Config, s: State, s': State, root: Ref, kind: Kind, ident: string)
    requires Sane(c, s) && Inv(c.text, s, {}) && Filled(c.text, s, s', |s.recursives|)
    requires root in s.source && s.source[root] == c.text.main
    requires s.arena[root].kind == kind && s.arena[root].ident == ident
    ensures Resolved(c.text, s', root, kind, ident)
    ensures AlwaysSound(c.text, c.text.main)
  {
    FilledIsForward(c, s, s');
    FilledUnfolds(c, s, s', root, kind, ident);
    hide Complete, NamesDiffer, AlwaysSound, Unfold, ExpandOne, ForwardUnlessMarked, Marked, Filled, Inv;
    forall j | 0 <= j < |s'.recursives| ensures PairOk(c.text, s', j) {
      FilledPair(c, s, s', j);
    }
  }

  lemma FilledPair(c: Config, s: State, s': State, j: nat)
    requires Sane(c, s) && Inv(c.text, s, {}) && Filled(c.text, s, s', |s.recursives|) && j < |s.recursives|
    ensures PairOk(c.text, s', j)
  {
    hide *;
    FilledIsForward(c, s, s');
    MasterIsComplete(c.text, s, j);
    FilledFacts(c.text, s, s', |s.recursives|);
    var (m, d) := s.recursives[j];
    FilledNames(c.text, s, s', |s.recursives|, m);
    FilledNames(c.text, s, s', |s.recursives|, d);
    DuplicateSame(s, s', j);
    PairIsOk(c.text, s', j);
  }

  lemma DuplicateSame(s: State, s': State, j: nat)
    requires s'.recursives == s.recursives && j < |s.recursives|
    ensures Duplicate(s', s.recursives[j].1)
    ensures Duplicate(s', s.recursives[j].0) <==> Duplicate(s, s.recursives[j].0)
  {
  }

  lemma PairIsOk(t: Text, s: State, j: nat)
    requires j < |s.recursives|
    requires var (m, d) := s.recursives[j];
             && m < |s.arena| && d < |s.arena| && s.arena[m].NodeCell? && s.arena[d].NodeCell? && s.arena[d].recursive
             && (forall i :: j <= i < |s.recursives| ==> s.recursives[i].1 != m)
             && (OneList(t) ==> !s.arena[m].recursive)
    ensures PairOk(t, s, j)
  {
  }

  lemma FilledUnfolds(c: Config, s: State, s': State, root: Ref, kind: Kind, ident: string)
    requires Sane(c, s) && Filled(c.text, s, s', |s.recursives|)
    requires root in s.source && s.source[root] == c.text.main
    requires s.arena[root].kind == kind && s.arena[root].ident == ident
    ensures root < |s'.arena| && Linked(s'.arena) && AlwaysSound(c.text, c.text.main)
    ensures forall n: nat :: Unfold(s'.arena, root, n) == ExpandOne(c.text, Node(kind, ident, c.text.main), n)
  {
    assert SameHead(s.arena[root], s'.arena[root]);
    forall x | x in s'.source ensures Complete(c.text, s', x) {
      assert !PairAfter(s, |s.recursives|, x);
    }
    hide Complete, NamesDiffer, Marked, Unfold, ExpandOne, Sound, GroupingsIntact, SameHeads;
    forall n: nat
      ensures Unfold(s'.arena, root, n) == ExpandOne(c.text, Node(kind, ident, c.text.main), n)
      ensures Sound(c.text, c.text.main, n)
    {
      UnfoldIsExpand(c.text, s', root, n);
      CompleteIsSound(c.text, s', root, n);
    }
  }
}
