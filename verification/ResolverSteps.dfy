/** What each step of the resolver expects and leaves behind in a run over a clean text. */
module ResolverSteps {
  import opened SchemaText
  import opened DefinitionArena
  import opened ResolverRun
  import opened ResolverState
  import opened ResolverSharing

  // ---------- how far a node is ----------

  /** How many definitions of the flattened list of a node have been dealt with, and how many of the ids it meets. */
  datatype Spot = Spot(defs: nat, ids: nat)

  const START := Spot(0, 0)

  /** After its first `k` elements `f` goes on with `next`. */
  ghost predicate Continues<T>(f: seq<T>, k: nat, next: seq<T>) {
    k + |next| <= |f| && f[..k + |next|] == f[..k] + next
  }

  ghost predicate Among(s: State, r: Ref, f: seq<Def>, k: nat) {
    exists q :: 0 <= q < k && q < |f| && MatchOne(s, r, f[q])
  }

  /**
    The first `k` definitions of the list of `x` have been dealt with: they are in place, unless `x` is a duplicate,
    which has some of them.
  */
  ghost predicate Placed(t: Text, s: State, x: Ref, k: nat) {
    && x in s.source && x < |s.arena| && s.arena[x].NodeCell? && k <= |Flatten(t, s.source[x])|
    && (forall i :: 0 <= i < |s.arena[x].defs| ==> Among(s, s.arena[x].defs[i], Flatten(t, s.source[x]), k))
    && (!Duplicate(s, x) ==> Upto(t, s, x, k))
  }

  /** What the resolver expects of the node `x` that it adds definitions to. */
  ghost predicate Ready(t: Text, s: State, x: Ref, at: Spot, open: set<Ref>) {
    && x in open && open <= s.source.Keys && Inv(t, s, open) && Lowest(t, s, x, open)
    && Placed(t, s, x, at.defs) && HasMet(t, s, x, at.ids)
  }

  /** The flattened definitions `next`, and the ids `met` on the way to them, come next for `x`. */
  ghost predicate Goes(t: Text, s: State, x: Ref, at: Spot, next: seq<Def>, met: seq<nat>)
    requires x in s.source
  {
    Continues(Flatten(t, s.source[x]), at.defs, next) && Continues(Met(t, s.source[x]), at.ids, met)
  }

  ghost function Past(at: Spot, next: seq<Def>, met: seq<nat>): Spot {
    Spot(at.defs + |next|, at.ids + |met|)
  }

  /**
    `ds` is to be added to `x`; it is the own list of `x`, or that of a grouping from which `n` further ones can be
    reached.
  */
  ghost predicate ListReady(t: Text, s: State, x: Ref, ds: seq<Def>, at: Spot, n: nat, open: set<Ref>, own: bool) {
    && Ready(t, s, x, at, open) && Goes(t, s, x, at, FlattenIn(t, ds, n), MetIn(t, ds, n)) && Settles(t, ds, n)
    && (UsesKnown(t, s.source[x]) ==> UsesKnownIn(t, ds, n))
    && if own then ds == s.source[x] && n == |t.groups| && at == START else at.ids > 0
  }

  ghost predicate ListAdded(t: Text, s: State, x: Ref, ds: seq<Def>, at: Spot, n: nat, open: set<Ref>, own: bool) {
    if own then Inv(t, s, open - {x}) else
      && Ready(t, s, x, Past(at, FlattenIn(t, ds, n), MetIn(t, ds, n)), open)
      && (!Duplicate(s, x) ==> UsesKnownIn(t, ds, n))
  }

  ghost predicate ItemReady(t: Text, s: State, x: Ref, d: Def, at: Spot, n: nat, open: set<Ref>, own: bool) {
    && Ready(t, s, x, at, open) && Goes(t, s, x, at, FlattenOne(t, d, n), MetOne(t, d, n)) && SettlesOne(t, d, n)
    && (UsesKnown(t, s.source[x]) ==> KnownOne(t, d, n))
    && (own || at.ids > 0)
  }

  ghost predicate ItemAdded(t: Text, s: State, x: Ref, d: Def, at: Spot, n: nat, open: set<Ref>) {
    && Ready(t, s, x, Past(at, FlattenOne(t, d, n), MetOne(t, d, n)), open)
    && (!Duplicate(s, x) ==> KnownOne(t, d, n))
  }

  /** A shared `uses` has been met, and what is left of the list it stands in is not added. */
  ghost predicate Stopped(t: Text, s: State, x: Ref, at: Spot, open: set<Ref>, own: bool) {
    && x in open && open <= s.source.Keys && Inv(t, s, open) && Lowest(t, s, x, open) && Duplicate(s, x)
    && Placed(t, s, x, at.defs)
    && (own || (at.ids > 0 && HasMet(t, s, x, at.ids)))
  }

  /** After the first `i` definitions. */
  ghost function PastSome(t: Text, ds: seq<Def>, i: nat, at: Spot, n: nat): Spot
    requires i <= |ds|
  {
    Past(at, FlattenIn(t, ds[..i], n), MetIn(t, ds[..i], n))
  }

  ghost predicate Progress(t: Text, s: State, x: Ref, ds: seq<Def>, i: nat, at: Spot, n: nat, open: set<Ref>)
    requires i <= |ds|
  {
    && Ready(t, s, x, PastSome(t, ds, i, at, n), open)
    && (!Duplicate(s, x) ==> UsesKnownIn(t, ds[..i], n))
  }

  // What these predicates mean, for proofs that hide them.

  lemma ReadyIs(t: Text, s: State, x: Ref, at: Spot, open: set<Ref>)
    ensures Ready(t, s, x, at, open) <==>
              && x in open && open <= s.source.Keys && Inv(t, s, open) && Lowest(t, s, x, open)
              && Placed(t, s, x, at.defs) && HasMet(t, s, x, at.ids)
  {
  }

  lemma ListReadyIs(t: Text, s: State, x: Ref, ds: seq<Def>, at: Spot, n: nat, open: set<Ref>, own: bool)
    ensures ListReady(t, s, x, ds, at, n, open, own) ==> x in s.source
    ensures x in s.source ==>
              (ListReady(t, s, x, ds, at, n, open, own) <==>
               && Ready(t, s, x, at, open) && Goes(t, s, x, at, FlattenIn(t, ds, n), MetIn(t, ds, n))
               && Settles(t, ds, n) && (UsesKnown(t, s.source[x]) ==> UsesKnownIn(t, ds, n))
               && if own then ds == s.source[x] && n == |t.groups| && at == START else at.ids > 0)
  {
    hide Inv, Lowest, Placed, HasMet, Goes, Settles, UsesKnown, UsesKnownIn;
  }

  lemma ItemReadyIs(t: Text, s: State, x: Ref, d: Def, at: Spot, n: nat, open: set<Ref>, own: bool)
    ensures ItemReady(t, s, x, d, at, n, open, own) ==> x in s.source
    ensures x in s.source ==>
              (ItemReady(t, s, x, d, at, n, open, own) <==>
               && Ready(t, s, x, at, open) && Goes(t, s, x, at, FlattenOne(t, d, n), MetOne(t, d, n))
               && SettlesOne(t, d, n) && (UsesKnown(t, s.source[x]) ==> KnownOne(t, d, n)) && (own || at.ids > 0))
  {
    hide Inv, Lowest, Placed, HasMet, Goes, SettlesOne, UsesKnown, KnownOne;
  }

  lemma PlacedIn(t: Text, s: State, x: Ref, k: nat)
    ensures Placed(t, s, x, k) ==> x in s.source && x < |s.arena| && s.arena[x].NodeCell?
  {
  }

  lemma GoesIs(t: Text, s: State, x: Ref, at: Spot, next: seq<Def>, met: seq<nat>)
    requires x in s.source
    ensures Goes(t, s, x, at, next, met) <==>
              Continues(Flatten(t, s.source[x]), at.defs, next) && Continues(Met(t, s.source[x]), at.ids, met)
    ensures Goes(t, s, x, at, next, met) ==>
              at.defs + |next| <= |Flatten(t, s.source[x])| && at.ids + |met| <= |Met(t, s.source[x])|
  {
    hide Flatten, Met;
  }

  // ---------- one list, definition by definition ----------

  lemma StartList(t: Text, s: State, x: Ref, ds: seq<Def>, at: Spot, n: nat, open: set<Ref>, own: bool)
    requires ListReady(t, s, x, ds, at, n, open, own)
    ensures Progress(t, s, x, ds, 0, at, n, open)
  {
    assert ds[..0] == [] && FlattenIn(t, [], n) == [] && MetIn(t, [], n) == [] && UsesKnownIn(t, [], n);
    assert PastSome(t, ds, 0, at, n) == at;
    hide Ready, Goes, FlattenIn, MetIn, UsesKnownIn, UsesKnown, Settles, Duplicate, PastSome;
  }

  lemma PrefixTake<T>(f: seq<T>, k: nat, all: seq<T>, n: nat)
    requires k + |all| <= |f| && f[..k + |all|] == f[..k] + all && n <= |all|
    ensures f[..k + n] == f[..k] + all[..n]
  {
    assert f[..k + n] == f[..k + |all|][..k + n];
  }

  lemma ContinuesNext<T>(f: seq<T>, k: nat, all: seq<T>, upto: seq<T>, one: seq<T>)
    requires Continues(f, k, all) && upto + one <= all
    ensures Continues(f, k + |upto|, one)
  {
    assert all[..|upto| + |one|] == upto + one;
    assert all[..|upto|] == all[..|upto| + |one|][..|upto|] == upto;
    PrefixTake(f, k, all, |upto|);
    PrefixTake(f, k, all, |upto| + |one|);
    assert f[..k] + (upto + one) == f[..k] + upto + one;
  }

  lemma NextItem(t: Text, s: State, s': State, x: Ref, ds: seq<Def>, i: nat, at: Spot, n: nat, open: set<Ref>,
                 own: bool)
    requires ListReady(t, s, x, ds, at, n, open, own) && i < |ds|
    requires Progress(t, s', x, ds, i, at, n, open) && x in s'.source && x in s.source && s'.source[x] == s.source[x]
    ensures ItemReady(t, s', x, ds[i], PastSome(t, ds, i, at, n), n, open, own)
  {
    ProgressIs(t, s', x, ds, i, at, n, open);
    OneOf(t, ds, i, n);
    hide *;
    ListReadyIs(t, s, x, ds, at, n, open, own);
    GoesNext(t, s, s', x, ds, i, at, n);
    PastIds(t, ds, i, at, n);
    ItemReadyIs(t, s', x, ds[i], PastSome(t, ds, i, at, n), n, open, own);
  }

  lemma ProgressIs(t: Text, s: State, x: Ref, ds: seq<Def>, i: nat, at: Spot, n: nat, open: set<Ref>)
    requires i <= |ds|
    ensures Progress(t, s, x, ds, i, at, n, open) <==>
              Ready(t, s, x, PastSome(t, ds, i, at, n), open) && (!Duplicate(s, x) ==> UsesKnownIn(t, ds[..i], n))
  {
    hide Ready, Duplicate, UsesKnownIn, PastSome;
  }

  lemma OneOf(t: Text, ds: seq<Def>, i: nat, n: nat)
    requires i < |ds|
    ensures Settles(t, ds, n) ==> SettlesOne(t, ds[i], n)
    ensures UsesKnownIn(t, ds, n) ==> KnownOne(t, ds[i], n)
  {
    hide SettlesOne, KnownOne;
  }

  lemma PastIds(t: Text, ds: seq<Def>, i: nat, at: Spot, n: nat)
    requires i <= |ds|
    ensures PastSome(t, ds, i, at, n).ids >= at.ids
  {
    hide FlattenIn, MetIn;
  }

  lemma GoesNext(t: Text, s: State, s': State, x: Ref, ds: seq<Def>, i: nat, at: Spot, n: nat)
    requires i < |ds| && x in s.source && x in s'.source && s'.source[x] == s.source[x]
    requires Goes(t, s, x, at, FlattenIn(t, ds, n), MetIn(t, ds, n))
    ensures Goes(t, s', x, PastSome(t, ds, i, at, n), FlattenOne(t, ds[i], n), MetOne(t, ds[i], n))
  {
    FlattenPrefix(t, ds, i, n);
    MetPrefix(t, ds, i, n);
    hide Flatten, FlattenIn, FlattenOne, Met, MetIn, MetOne, Continues;
    var l := s.source[x];
    ContinuesNext(Flatten(t, l), at.defs, FlattenIn(t, ds, n), FlattenIn(t, ds[..i], n), FlattenOne(t, ds[i], n));
    ContinuesNext(Met(t, l), at.ids, MetIn(t, ds, n), MetIn(t, ds[..i], n), MetOne(t, ds[i], n));
  }

  lemma ExtendProgress(t: Text, s: State, s': State, x: Ref, ds: seq<Def>, i: nat, at: Spot, n: nat, open: set<Ref>)
    requires i < |ds| && Progress(t, s, x, ds, i, at, n, open)
    requires ItemAdded(t, s', x, ds[i], PastSome(t, ds, i, at, n), n, open) && PairsKept(s, s')
    ensures Progress(t, s', x, ds, i + 1, at, n, open)
  {
    hide *;
    ProgressIs(t, s, x, ds, i, at, n, open);
    ItemAddedIs(t, s', x, ds[i], PastSome(t, ds, i, at, n), n, open);
    PastNext(t, ds, i, at, n);
    if Duplicate(s, x) {
      DuplicateKeeps(s, s', x);
    } else if KnownOne(t, ds[i], n) {
      UsesKnownNext(t, ds, i, n);
    }
    ProgressIs(t, s', x, ds, i + 1, at, n, open);
  }

  lemma ItemAddedIs(t: Text, s: State, x: Ref, d: Def, at: Spot, n: nat, open: set<Ref>)
    ensures ItemAdded(t, s, x, d, at, n, open) <==>
              && Ready(t, s, x, Past(at, FlattenOne(t, d, n), MetOne(t, d, n)), open)
              && (!Duplicate(s, x) ==> KnownOne(t, d, n))
  {
    hide Ready, Duplicate, KnownOne, FlattenOne, MetOne, Past;
  }

  lemma PastNext(t: Text, ds: seq<Def>, i: nat, at: Spot, n: nat)
    requires i < |ds|
    ensures Past(PastSome(t, ds, i, at, n), FlattenOne(t, ds[i], n), MetOne(t, ds[i], n))
            == PastSome(t, ds, i + 1, at, n)
  {
    FlattenPrefix(t, ds, i, n);
    MetPrefix(t, ds, i, n);
    hide FlattenIn, MetIn, FlattenOne, MetOne;
  }

  lemma UsesKnownNext(t: Text, ds: seq<Def>, i: nat, n: nat)
    requires i < |ds| && UsesKnownIn(t, ds[..i], n) && KnownOne(t, ds[i], n)
    ensures UsesKnownIn(t, ds[..i + 1], n)
  {
    var es := ds[..i + 1];
    forall j | 0 <= j < |es| ensures KnownOne(t, es[j], n) {
      assert j < i ==> ds[..i][j] == ds[j];
    }
  }

  lemma FinishList(t: Text, s: State, s': State, x: Ref, ds: seq<Def>, at: Spot, n: nat, open: set<Ref>, own: bool)
    requires ListReady(t, s, x, ds, at, n, open, own) && x in s.source
    requires Progress(t, s', x, ds, |ds|, at, n, open) && x in s'.source && s'.source[x] == s.source[x]
    ensures ListAdded(t, s', x, ds, at, n, open, own)
  {
    assert ds[..|ds|] == ds;
    PastAll(t, ds, at, n);
    hide *;
    ProgressIs(t, s', x, ds, |ds|, at, n, open);
    ListReadyIs(t, s, x, ds, at, n, open, own);
    if own {
      ReadyIs(t, s', x, PastSome(t, ds, |ds|, at, n), open);
      OwnComplete(t, s', x, ds, at, n);
      CloseNode(t, s', x, open);
    }
    ListAddedIs(t, s', x, ds, at, n, open, own);
  }

  lemma PastAll(t: Text, ds: seq<Def>, at: Spot, n: nat)
    ensures PastSome(t, ds, |ds|, at, n) == Past(at, FlattenIn(t, ds, n), MetIn(t, ds, n))
  {
    assert ds[..|ds|] == ds;
    hide FlattenIn, MetIn;
  }

  lemma ListAddedIs(t: Text, s: State, x: Ref, ds: seq<Def>, at: Spot, n: nat, open: set<Ref>, own: bool)
    ensures own ==> (ListAdded(t, s, x, ds, at, n, open, own) <==> Inv(t, s, open - {x}))
    ensures !own ==>
              (ListAdded(t, s, x, ds, at, n, open, own) <==>
               && Ready(t, s, x, Past(at, FlattenIn(t, ds, n), MetIn(t, ds, n)), open)
               && (!Duplicate(s, x) ==> UsesKnownIn(t, ds, n)))
  {
    hide Ready, Inv, Duplicate, UsesKnownIn, FlattenIn, MetIn, Past;
  }

  lemma OwnComplete(t: Text, s: State, x: Ref, ds: seq<Def>, at: Spot, n: nat)
    requires x in s.source && ds == s.source[x] && n == |t.groups| && at == START
    requires Placed(t, s, x, Past(at, FlattenIn(t, ds, n), MetIn(t, ds, n)).defs)
    requires !Duplicate(s, x) ==> UsesKnownIn(t, ds, n)
    ensures Complete(t, s, x) || Duplicate(s, x)
  {
    hide Upto, FlattenIn, MetIn, UsesKnownIn, Duplicate, Among;
  }

  /** A list whose rest is dropped: as `x` is a duplicate, it may count as added. */
  lemma StopList(t: Text, s: State, s': State, x: Ref, ds: seq<Def>, i: nat, at: Spot, n: nat, open: set<Ref>,
                 own: bool)
    requires ListReady(t, s, x, ds, at, n, open, own) && i < |ds|
    requires x in s.source && x in s'.source && s'.source[x] == s.source[x]
    requires Stopped(t, s', x, PastSome(t, ds, i, at, n), open, own)
    ensures ListAdded(t, s', x, ds, at, n, open, own)
  {
    var all := Past(at, FlattenIn(t, ds, n), MetIn(t, ds, n));
    StoppedIs(t, s', x, PastSome(t, ds, i, at, n), open, own);
    hide *;
    ListReadyIs(t, s, x, ds, at, n, open, own);
    if own {
      CloseNode(t, s', x, open);
    } else {
      GoesIs(t, s, x, at, FlattenIn(t, ds, n), MetIn(t, ds, n));
      PastLess(t, ds, i, at, n);
      LaterSpot(t, s', x, PastSome(t, ds, i, at, n), all);
      ReadyIs(t, s', x, all, open);
    }
    ListAddedIs(t, s', x, ds, at, n, open, own);
  }

  lemma StoppedIs(t: Text, s: State, x: Ref, at: Spot, open: set<Ref>, own: bool)
    ensures Stopped(t, s, x, at, open, own) <==>
              && x in open && open <= s.source.Keys && Inv(t, s, open) && Lowest(t, s, x, open) && Duplicate(s, x)
              && Placed(t, s, x, at.defs)
              && (own || (at.ids > 0 && HasMet(t, s, x, at.ids)))
  {
    hide Inv, Lowest, Duplicate, Placed, HasMet;
  }

  lemma PastLess(t: Text, ds: seq<Def>, i: nat, at: Spot, n: nat)
    requires i < |ds|
    ensures var all := Past(at, FlattenIn(t, ds, n), MetIn(t, ds, n));
            && PastSome(t, ds, i, at, n).defs <= all.defs == at.defs + |FlattenIn(t, ds, n)|
            && PastSome(t, ds, i, at, n).ids <= all.ids == at.ids + |MetIn(t, ds, n)|
  {
    FlattenPrefix(t, ds, i, n);
    MetPrefix(t, ds, i, n);
    hide FlattenIn, MetIn, FlattenOne, MetOne;
  }

  lemma LaterSpot(t: Text, s: State, x: Ref, at: Spot, later: Spot)
    requires Placed(t, s, x, at.defs) && HasMet(t, s, x, at.ids) && Duplicate(s, x) && at.ids > 0
    requires at.defs <= later.defs <= |Flatten(t, s.source[x])| && at.ids <= later.ids <= |Met(t, s.source[x])|
    ensures Placed(t, s, x, later.defs) && HasMet(t, s, x, later.ids)
  {
    hide Duplicate, MatchOne, Flatten, Met;
    var f := Flatten(t, s.source[x]);
    forall i | 0 <= i < |s.arena[x].defs| ensures Among(s, s.arena[x].defs[i], f, later.defs) {
      assert Among(s, s.arena[x].defs[i], f, at.defs);
    }
    assert FirstIds(Met(t, s.source[x]), at.ids) <= FirstIds(Met(t, s.source[x]), later.ids);
  }

  // ---------- what shows that the text is not sound ----------

  lemma NextIs(t: Text, s: State, x: Ref, d: Def, at: Spot, n: nat, open: set<Ref>, own: bool)
    requires ItemReady(t, s, x, d, at, n, open, own) && !d.Uses?
    ensures at.defs < |Flatten(t, s.source[x])| && Flatten(t, s.source[x])[at.defs] == d
  {
    assert Flatten(t, s.source[x])[..at.defs + 1][at.defs] == d;
  }

  lemma ConflictFound(c: Config, s: State, x: Ref, r: Ref, d: Def, at: Spot, n: nat, open: set<Ref>, own: bool)
    requires Sane(c, s) && PendingOne(c, s, x, r, d) && !d.Uses?
    requires ItemReady(c.text, s, x, d, at, n, open, own)
    requires exists i :: 0 <= i < |s.arena[x].defs| && CellName(s.arena[s.arena[x].defs[i]]) == CellName(s.arena[r])
    ensures x in s.source && !AlwaysSound(c.text, s.source[x])
  {
    NextIs(c.text, s, x, d, at, n, open, own);
    LaidOutName(c, s, x, r, d);
    hide *;
    ItemReadyIs(c.text, s, x, d, at, n, open, own);
    ReadyIs(c.text, s, x, at, open);
    var f := Flatten(c.text, s.source[x]);
    var i :| 0 <= i < |s.arena[x].defs| && CellName(s.arena[s.arena[x].defs[i]]) == CellName(s.arena[r]);
    var q := PlacedAs(c.text, s, x, at.defs, i);
    NamesClash(c.text, s.source[x], q, at.defs);
  }

  lemma LaidOutName(c: Config, s: State, x: Ref, r: Ref, d: Def)
    requires Sane(c, s) && PendingOne(c, s, x, r, d)
    ensures x in s.source && x < |s.arena| && s.arena[x].NodeCell? && r < |s.arena| && CellName(s.arena[r]) == NameOf(d)
    ensures forall i :: 0 <= i < |s.arena[x].defs| ==> s.arena[x].defs[i] < |s.arena|
  {
  }

  lemma PlacedAs(t: Text, s: State, x: Ref, k: nat, i: nat) returns (q: nat)
    requires Placed(t, s, x, k) && i < |s.arena[x].defs|
    ensures q < k && q < |Flatten(t, s.source[x])| && s.arena[x].defs[i] < |s.arena|
    ensures NameOf(Flatten(t, s.source[x])[q]) == CellName(s.arena[s.arena[x].defs[i]])
  {
    var f := Flatten(t, s.source[x]);
    hide Flatten, Upto, Duplicate;
    assert Among(s, s.arena[x].defs[i], f, k);
    q :| 0 <= q < k && q < |f| && MatchOne(s, s.arena[x].defs[i], f[q]);
  }

  lemma NamesClash(t: Text, l: seq<Def>, i: nat, j: nat)
    requires i < j < |Flatten(t, l)| && NameOf(Flatten(t, l)[i]) == NameOf(Flatten(t, l)[j])
    ensures !AlwaysSound(t, l)
  {
    assert !Sound(t, l, 0);
  }

  lemma UnknownIsUnsound(t: Text, ds: seq<Def>)
    requires !UsesKnown(t, ds)
    ensures !AlwaysSound(t, ds)
  {
    assert !Sound(t, ds, 0);
  }

  lemma UsesUnknown(c: Config, s: State, x: Ref, d: Def, at: Spot, n: nat, open: set<Ref>, own: bool)
    requires Sane(c, s) && d.Uses? && d.group !in c.base
    requires ItemReady(c.text, s, x, d, at, n, open, own)
    ensures !AlwaysSound(c.text, s.source[x])
  {
    UnknownIsUnsound(c.text, s.source[x]);
  }

  lemma UnsoundBelow(t: Text, s: State, x: Ref, d: Def, at: Spot, n: nat, open: set<Ref>, own: bool)
    requires ItemReady(t, s, x, d, at, n, open, own) && d.Node? && !AlwaysSound(t, d.body)
    ensures !AlwaysSound(t, s.source[x])
  {
    NextIs(t, s, x, d, at, n, open, own);
    if AlwaysSound(t, s.source[x]) {
      AlwaysSoundBelow(t, s.source[x], at.defs);
    }
  }

  // ---------- appending a definition ----------

  ghost predicate Adds1(s: State, s': State, x: Ref, r: Ref, d: Def) {
    && x < |s.arena| && s.arena[x].NodeCell? && x < r < |s.arena|
    && (d.Leaf? ==> s' == s.(arena := s.arena[x := s.arena[x].(defs := s.arena[x].defs + [r])]))
    && (d.Node? ==>
          && s.arena[r].NodeCell?
          && s' == s.(arena := s.arena[x := s.arena[x].(defs := s.arena[x].defs + [r])][r := s.arena[r].(defs := [])],
                      source := s.source[r := d.body]))
  }

  lemma AppendPlaced(t: Text, s: State, s': State, x: Ref, r: Ref, d: Def, k: nat)
    requires Placed(t, s, x, k) && !d.Uses? && k < |Flatten(t, s.source[x])| && Flatten(t, s.source[x])[k] == d
    requires Opened(s, 0) && r !in s.source && LaidOut(s.arena, r, d) && Adds1(s, s', x, r, d)
    ensures Placed(t, s', x, k + 1)
  {
    hide Flatten, MatchOne, Among, Duplicate;
    AppendHeads(s, s', x, r, d);
    var f := Flatten(t, s.source[x]);
    AppendAmong(s, s', x, r, d, f, k);
    assert Duplicate(s', x) <==> Duplicate(s, x) by { SamePairs(s, s', x); }
    if !Duplicate(s', x) {
      AppendUpto(s, s', x, r, d, f, k);
    }
  }

  lemma SamePairs(s: State, s': State, x: Ref)
    requires s'.recursives == s.recursives
    ensures Duplicate(s', x) <==> Duplicate(s, x)
  {
  }

  lemma AppendHeads(s: State, s': State, x: Ref, r: Ref, d: Def)
    requires Opened(s, 0) && r !in s.source && LaidOut(s.arena, r, d) && Adds1(s, s', x, r, d) && !d.Uses?
    ensures SameHeads(s.arena, s'.arena) && SourceKept(s, s') && MatchOne(s', r, d)
    ensures x < |s'.arena| && s'.arena[x].NodeCell? && s'.arena[x].defs == s.arena[x].defs + [r]
    ensures s'.recursives == s.recursives
  {
    hide LaidOutAll;
  }

  lemma AppendAmong(s: State, s': State, x: Ref, r: Ref, d: Def, f: seq<Def>, k: nat)
    requires k < |f| && f[k] == d && MatchOne(s', r, d) && SameHeads(s.arena, s'.arena) && SourceKept(s, s')
    requires x < |s.arena| && s.arena[x].NodeCell? && x < |s'.arena| && s'.arena[x].NodeCell?
    requires s'.arena[x].defs == s.arena[x].defs + [r]
    requires forall i :: 0 <= i < |s.arena[x].defs| ==> Among(s, s.arena[x].defs[i], f, k)
    ensures forall i :: 0 <= i < |s'.arena[x].defs| ==> Among(s', s'.arena[x].defs[i], f, k + 1)
  {
    hide SameHeads, SourceKept, MatchOne;
    forall i | 0 <= i < |s'.arena[x].defs| ensures Among(s', s'.arena[x].defs[i], f, k + 1) {
      if i < |s.arena[x].defs| {
        assert Among(s, s.arena[x].defs[i], f, k);
        var q :| 0 <= q < k && q < |f| && MatchOne(s, s.arena[x].defs[i], f[q]);
        MatchKeeps(s, s', s.arena[x].defs[i], f[q]);
      }
    }
  }

  lemma AppendUpto(s: State, s': State, x: Ref, r: Ref, d: Def, f: seq<Def>, k: nat)
    requires k < |f| && f[k] == d && MatchOne(s', r, d) && SameHeads(s.arena, s'.arena) && SourceKept(s, s')
    requires x < |s.arena| && s.arena[x].NodeCell? && x < |s'.arena| && s'.arena[x].NodeCell?
    requires s'.arena[x].defs == s.arena[x].defs + [r] && |s.arena[x].defs| == k
    requires forall i :: 0 <= i < k ==> MatchOne(s, s.arena[x].defs[i], f[i])
    ensures forall i :: 0 <= i < k + 1 ==> MatchOne(s', s'.arena[x].defs[i], f[i])
  {
    hide SameHeads, SourceKept, MatchOne;
    forall i | 0 <= i < k + 1 ensures MatchOne(s', s'.arena[x].defs[i], f[i]) {
      if i < k {
        MatchKeeps(s, s', s.arena[x].defs[i], f[i]);
      }
    }
  }

  /** Appending an untouched leaf, or a container or list that is opened at once. */
  lemma AppendKeeps(t: Text, s: State, s': State, x: Ref, r: Ref, d: Def, at: Spot, n: nat, open: set<Ref>, own: bool)
    requires ItemReady(t, s, x, d, at, n, open, own) && !d.Uses?
    requires Opened(s, 0) && r !in s.source && LaidOut(s.arena, r, d) && Adds1(s, s', x, r, d)
    ensures var open' := if d.Node? then open + {r} else open;
            Inv(t, s', open') && open' <= s'.source.Keys
    ensures Placed(t, s', x, at.defs + 1) && HasMet(t, s', x, at.ids) && s'.source[x] == s.source[x]
    ensures forall y :: Registered(s', y) == Registered(s, y)
    ensures d.Node? ==> ChildOf(t, d.body, s.source[x])
  {
    NextIs(t, s, x, d, at, n, open, own);
    hide *;
    ItemReadyIs(t, s, x, d, at, n, open, own);
    ReadyIs(t, s, x, at, open);
    AppendPlaced(t, s, s', x, r, d, at.defs);
    AppendInv(t, s, s', x, r, d, at.defs, open);
    AppendMet(t, s, s', x, r, d, at.ids, open);
  }

  lemma AppendMet(t: Text, s: State, s': State, x: Ref, r: Ref, d: Def, k: nat, open: set<Ref>)
    requires HasMet(t, s, x, k) && r !in s.source && Adds1(s, s', x, r, d) && !d.Uses? && open <= s.source.Keys
    requires Registered(s', x) == Registered(s, x)
    ensures HasMet(t, s', x, k) && s'.source[x] == s.source[x]
            && (if d.Node? then open + {r} else open) <= s'.source.Keys
  {
    hide Met, Registered;
  }

  lemma AppendInv(t: Text, s: State, s': State, x: Ref, r: Ref, d: Def, k: nat, open: set<Ref>)
    requires Inv(t, s, open) && x in open && x in s.source && !d.Uses?
    requires k < |Flatten(t, s.source[x])| && Flatten(t, s.source[x])[k] == d
    requires Opened(s, 0) && r !in s.source && Adds1(s, s', x, r, d)
    ensures Inv(t, s', if d.Node? then open + {r} else open)
    ensures forall y :: Registered(s', y) == Registered(s, y)
    ensures d.Node? ==> ChildOf(t, d.body, s.source[x])
  {
    InvIs(t, s, open);
    hide Flatten, Inv, Registered, AlwaysSound, Reached, Below, ChildOf, Sharing, Closed;
    if d.Node? {
      ReachedChild(t, s.source[x], k);
      ChildIs(t, s.source[x], k);
      if AlwaysSound(t, s.source[x]) {
        AlwaysSoundBelow(t, s.source[x], k);
      }
    }
    hide Registry;
    InvKeeps(t, s, s', open, if d.Node? then open + {r} else open);
  }

  lemma ChildIs(t: Text, l: seq<Def>, i: nat)
    requires i < |Flatten(t, l)| && Flatten(t, l)[i].Node?
    ensures ChildOf(t, Flatten(t, l)[i].body, l)
  {
    hide Flatten;
  }

  lemma LeafAdded(c: Config, s: State, s': State, x: Ref, r: Ref, d: Def, at: Spot, n: nat, open: set<Ref>, own: bool)
    requires Sane(c, s) && PendingOne(c, s, x, r, d) && d.Leaf?
    requires Appended(s, s', x, r)
    requires ItemReady(c.text, s, x, d, at, n, open, own)
    ensures ItemAdded(c.text, s', x, d, at, n, open)
  {
    LeafAppended(c, s, s', x, r, d);
    hide *;
    AppendKeeps(c.text, s, s', x, r, d, at, n, open, own);
    ItemReadyIs(c.text, s, x, d, at, n, open, own);
    ReadyIs(c.text, s, x, at, open);
    LowestSame(c.text, s, s', x, open);
    ReadyIs(c.text, s', x, Spot(at.defs + 1, at.ids), open);
    LeafPast(c.text, d, at, n);
    ItemAddedIs(c.text, s', x, d, at, n, open);
  }

  lemma LeafAppended(c: Config, s: State, s': State, x: Ref, r: Ref, d: Def)
    requires Sane(c, s) && PendingOne(c, s, x, r, d) && d.Leaf? && Appended(s, s', x, r)
    ensures Opened(s, 0) && r !in s.source && LaidOut(s.arena, r, d) && Adds1(s, s', x, r, d) && s'.source == s.source
  {
    hide LaidOut;
  }

  lemma LowestSame(t: Text, s: State, s': State, x: Ref, open: set<Ref>)
    requires Lowest(t, s, x, open) && s'.source == s.source
    ensures Lowest(t, s', x, open)
  {
    hide Below;
  }

  lemma LeafPast(t: Text, d: Def, at: Spot, n: nat)
    requires !d.Uses?
    ensures Past(at, FlattenOne(t, d, n), MetOne(t, d, n)) == Spot(at.defs + 1, at.ids) && KnownOne(t, d, n)
  {
  }

  // ---------- entering and leaving a container or list ----------

  /** What is known of `x` while the definitions below its new child `r` are resolved. */
  ghost predicate Waits(t: Text, s: State, x: Ref, at: Spot, open: set<Ref>) {
    && x in open && x in s.source && open <= s.source.Keys && Lowest(t, s, x, open)
    && Placed(t, s, x, at.defs + 1) && HasMet(t, s, x, at.ids)
  }

  lemma NodeEntered(c: Config, s: State, s1: State, s2: State, x: Ref, r: Ref, d: Def, at: Spot, n: nat,
                    open: set<Ref>, own: bool)
    requires Clean(c.text) && Sane(c, s) && PendingOne(c, s, x, r, d) && d.Node?
    requires Appended(s, s1, x, r) && Popped(s1, s2, r, d)
    requires ItemReady(c.text, s, x, d, at, n, open, own)
    ensures Waits(c.text, s2, x, at, open) && r !in open
    ensures ListReady(c.text, s2, r, d.body, START, |c.text.groups|, open + {r}, true)
  {
    NodeAppended(c, s, s1, s2, x, r, d);
    FreshRef(c, s, r, d);
    hide *;
    ItemReadyIs(c.text, s, x, d, at, n, open, own);
    ReadyIs(c.text, s, x, at, open);
    AppendKeeps(c.text, s, s2, x, r, d, at, n, open, own);
    LowestChild(c.text, s, s2, x, r, d, open);
    SamePairs(s, s2, r);
    FreshReady(c.text, s2, r, d.body, open + {r});
    WaitsIs(c.text, s2, x, at, open);
  }

  lemma NodeAppended(c: Config, s: State, s1: State, s2: State, x: Ref, r: Ref, d: Def)
    requires Sane(c, s) && PendingOne(c, s, x, r, d) && d.Node? && Appended(s, s1, x, r) && Popped(s1, s2, r, d)
    ensures Opened(s, 0) && r !in s.source && LaidOut(s.arena, r, d) && Adds1(s, s2, x, r, d) && x in s.source && x < r
    ensures s2.source == s.source[r := d.body] && s2.recursives == s.recursives
    ensures s2.source[r] == d.body && r < |s2.arena| && s2.arena[r].NodeCell? && s2.arena[r].defs == []
  {
    hide LaidOutAll;
  }

  lemma FreshRef(c: Config, s: State, r: Ref, d: Def)
    requires Sane(c, s) && r !in s.source
    ensures Registered(s, r) == {} && !Duplicate(s, r)
  {
  }

  lemma WaitsIs(t: Text, s: State, x: Ref, at: Spot, open: set<Ref>)
    ensures Waits(t, s, x, at, open) <==>
              && x in open && x in s.source && open <= s.source.Keys && Lowest(t, s, x, open)
              && Placed(t, s, x, at.defs + 1) && HasMet(t, s, x, at.ids)
  {
    hide Lowest, Placed, HasMet;
  }

  lemma LowestChild(t: Text, s: State, s': State, x: Ref, r: Ref, d: Def, open: set<Ref>)
    requires Lowest(t, s, x, open) && x in open && r !in s.source && d.Node? && ChildOf(t, d.body, s.source[x])
    requires s'.source == s.source[r := d.body]
    ensures Lowest(t, s', x, open) && Lowest(t, s', r, open + {r})
  {
    forall y | y in open ensures Below(t, d.body, s.source[y]) {
      BelowChild(t, d.body, s.source[y], s.source[x]);
    }
    hide Below, ChildOf;
  }

  /** A node that has just been opened. */
  lemma FreshReady(t: Text, s: State, r: Ref, l: seq<Def>, open: set<Ref>)
    requires Clean(t) && Inv(t, s, open) && r in open && open <= s.source.Keys && Lowest(t, s, r, open)
    requires s.source[r] == l && r < |s.arena| && s.arena[r].NodeCell? && s.arena[r].defs == []
    requires Registered(s, r) == {} && !Duplicate(s, r)
    ensures ListReady(t, s, r, l, START, |t.groups|, open, true)
  {
    CleanSettles(t, l);
    FreshPlaced(t, s, r);
    FreshGoes(t, s, r);
    hide *;
    ReadyIs(t, s, r, START, open);
    ListReadyIs(t, s, r, l, START, |t.groups|, open, true);
    UsesKnownIs(t, l);
  }

  lemma UsesKnownIs(t: Text, l: seq<Def>)
    ensures UsesKnown(t, l) <==> UsesKnownIn(t, l, |t.groups|)
  {
    hide UsesKnownIn;
  }

  lemma FreshPlaced(t: Text, s: State, r: Ref)
    requires r in s.source && r < |s.arena| && s.arena[r].NodeCell? && s.arena[r].defs == []
    requires Registered(s, r) == {} && !Duplicate(s, r)
    ensures Placed(t, s, r, START.defs) && HasMet(t, s, r, START.ids)
  {
    hide Registered, Duplicate, Met, Flatten;
  }

  lemma FreshGoes(t: Text, s: State, r: Ref)
    requires r in s.source
    ensures var l := s.source[r]; Goes(t, s, r, START, FlattenIn(t, l, |t.groups|), MetIn(t, l, |t.groups|))
  {
    hide FlattenIn, MetIn;
  }

  /** What went on below `r` leaves the addition of `r` to `x` in place. */
  lemma NodeLeft(t: Text, s: State, s': State, x: Ref, r: Ref, d: Def, at: Spot, n: nat, open: set<Ref>, hi: Ref)
    requires Waits(t, s, x, at, open) && d.Node? && x < r && r !in open && x < |s.arena|
    requires Grows(s, s', r, r + 1, hi) && Inv(t, s', open + {r} - {r})
    ensures ItemAdded(t, s', x, d, at, n, open)
  {
    assert open + {r} - {r} == open;
    GrowsKeeps(s, s', r, r + 1, hi, x);
    LeafPast(t, d, at, n);
    hide *;
    WaitsIs(t, s, x, at, open);
    PlacedKeeps(t, s, s', x, at.defs + 1);
    MetKeeps(t, s, s', x, at.ids, r, r + 1, hi);
    LowestKept(t, s, s', x, open);
    ReadyIs(t, s', x, Spot(at.defs + 1, at.ids), open);
    ItemAddedIs(t, s', x, d, at, n, open);
  }

  lemma GrowsKeeps(s: State, s': State, r: Ref, lo: Ref, hi: Ref, x: Ref)
    requires Grows(s, s', r, lo, hi) && x < |s.arena| && x != r && !(lo <= x < hi)
    ensures SameHeads(s.arena, s'.arena) && SourceKept(s, s') && PairsKept(s, s') && s'.arena[x] == s.arena[x]
  {
    hide SameHeads;
  }

  lemma GrowsPairs(s: State, s': State, x: Ref, lo: Ref, hi: Ref)
    requires Grows(s, s', x, lo, hi)
    ensures PairsKept(s, s')
  {
    hide SameHeads;
  }

  lemma LowestKept(t: Text, s: State, s': State, x: Ref, open: set<Ref>)
    requires Lowest(t, s, x, open) && SourceKept(s, s') && open <= s.source.Keys
    ensures Lowest(t, s', x, open) && open <= s'.source.Keys
  {
    hide Below;
  }

  lemma PlacedKeeps(t: Text, s: State, s': State, x: Ref, k: nat)
    requires Placed(t, s, x, k) && SameHeads(s.arena, s'.arena) && SourceKept(s, s') && PairsKept(s, s')
    requires s'.arena[x] == s.arena[x]
    ensures Placed(t, s', x, k)
  {
    hide Flatten;
    var f := Flatten(t, s.source[x]);
    forall i | 0 <= i < |s.arena[x].defs| ensures Among(s', s.arena[x].defs[i], f, k) {
      assert Among(s, s.arena[x].defs[i], f, k);
      var q :| 0 <= q < k && q < |f| && MatchOne(s, s.arena[x].defs[i], f[q]);
      MatchKeeps(s, s', s.arena[x].defs[i], f[q]);
    }
    if Duplicate(s, x) {
      DuplicateKeeps(s, s', x);
    } else {
      UptoKeeps(t, s, s', x, k);
    }
  }

  lemma MetKeeps(t: Text, s: State, s': State, x: Ref, k: nat, r: Ref, lo: Ref, hi: Ref)
    requires HasMet(t, s, x, k) && Grows(s, s', r, lo, hi) && x != r
    ensures HasMet(t, s', x, k)
  {
    hide Met, SameHeads;
    assert Registered(s', x) == Registered(s, x);
    if Duplicate(s', x) {
      var j :| 0 <= j < |s'.recursives| && s'.recursives[j].1 == x;
      assert j < |s.recursives|;
      assert Duplicate(s, x);
    }
  }

  // ---------- entering a `uses` ----------

  lemma UsesIsNext(c: Config, s: State, x: Ref, d: Def, at: Spot, n: nat, open: set<Ref>, own: bool)
    requires ItemReady(c.text, s, x, d, at, n, open, own) && d.Uses?
    ensures MeetsNext(c.text, s, x, at.ids, d.id)
  {
    hide *;
    ItemReadyIs(c.text, s, x, d, at, n, open, own);
    ReadyIs(c.text, s, x, at, open);
    NextMet(c.text, s, x, d, at, n);
  }

  lemma NextMet(t: Text, s: State, x: Ref, d: Def, at: Spot, n: nat)
    requires x in s.source && d.Uses? && Goes(t, s, x, at, FlattenOne(t, d, n), MetOne(t, d, n))
    requires HasMet(t, s, x, at.ids)
    ensures MeetsNext(t, s, x, at.ids, d.id)
  {
    var met := MetOne(t, d, n);
    assert Met(t, s.source[x])[..at.ids + |met|][at.ids] == met[0] == d.id;
  }

  lemma UsesShared(c: Config, s: State, s': State, x: Ref, d: Def, at: Spot, n: nat, open: set<Ref>, own: bool)
    requires Clean(c.text) && Sane(c, s) && d.Uses? && d.id in s.inProgress
    requires ItemReady(c.text, s, x, d, at, n, open, own)
    requires s' == s.(recursives := s.recursives + [(s.inProgress[d.id], x)])
    ensures Stopped(c.text, s', x, at, open, own)
  {
    SharedFrame(c, s, s', d.id, x);
    hide *;
    ItemReadyIs(c.text, s, x, d, at, n, open, own);
    ReadyIs(c.text, s, x, at, open);
    UsesIsNext(c, s, x, d, at, n, open, own);
    ShareKeeps(c.text, s, s', open, x, at.ids, d.id);
    PlacedIn(c.text, s, x, at.defs);
    PlacedKeeps(c.text, s, s', x, at.defs);
    LowestSame(c.text, s, s', x, open);
    if at.ids > 0 {
      SharedMet(c.text, s, s', x, at.ids);
    }
    StoppedIs(c.text, s', x, at, open, own);
  }

  lemma SharedFrame(c: Config, s: State, s': State, u: nat, x: Ref)
    requires Sane(c, s) && u in s.inProgress && s' == s.(recursives := s.recursives + [(s.inProgress[u], x)])
    ensures SameHeads(s.arena, s'.arena) && SourceKept(s, s') && PairsKept(s, s')
    ensures forall y :: y in s.source ==> y < |s.arena|
  {
  }

  lemma SharedMet(t: Text, s: State, s': State, x: Ref, k: nat)
    requires HasMet(t, s, x, k) && k > 0 && s'.source == s.source && s'.inProgress == s.inProgress
    ensures HasMet(t, s', x, k)
  {
    assert Registered(s', x) == Registered(s, x);
    hide Met, Registered;
  }

  /** The grouping that a `uses` names. */
  ghost predicate IsGrouping(t: Text, d: Def, g: seq<Def>) {
    d.Uses? && d.group in t.groups && g == t.groups[d.group]
  }

  lemma CloneReady(c: Config, s: State, s': State, x: Ref, d: Def, g: seq<Def>, at: Spot, n: nat, open: set<Ref>,
                   own: bool)
    requires Sane(c, s) && Cloned(c, s, s', x, d) && IsGrouping(c.text, d, g)
    requires ItemReady(c.text, s, x, d, at, n, open, own)
    ensures n > 0 && ListReady(c.text, s', x, g, Spot(at.defs, at.ids + 1), n - 1, open, false)
  {
    hide *;
    var t, at' := c.text, Spot(at.defs, at.ids + 1);
    CloneFrame(c, s, s', x, d);
    CloneInv(c, s, s', x, d, at, n, open, own);
    ItemReadyIs(t, s, x, d, at, n, open, own);
    ReadyIs(t, s, x, at, open);
    CloneKnown(t, s.source[x], d, g, n);
    CloneGoes(t, s, x, d, g, at, n);
    CloneListReady(t, s, s', x, g, at', n - 1, open);
  }

  lemma CloneListReady(t: Text, s: State, s': State, x: Ref, g: seq<Def>, at: Spot, n: nat, open: set<Ref>)
    requires x in open && open <= s.source.Keys && Lowest(t, s, x, open) && s'.source == s.source && at.ids > 0
    requires Inv(t, s', open) && HasMet(t, s', x, at.ids) && Placed(t, s', x, at.defs)
    requires Goes(t, s, x, at, FlattenIn(t, g, n), MetIn(t, g, n)) && Settles(t, g, n)
    requires UsesKnown(t, s.source[x]) ==> UsesKnownIn(t, g, n)
    ensures ListReady(t, s', x, g, at, n, open, false)
  {
    hide *;
    LowestSame(t, s, s', x, open);
    GoesSame(t, s, s', x, at, g, n);
    ReadyIs(t, s', x, at, open);
    ListReadyIs(t, s', x, g, at, n, open, false);
  }

  lemma CloneFrame(c: Config, s: State, s': State, x: Ref, d: Def)
    requires Sane(c, s) && Cloned(c, s, s', x, d)
    ensures SameHeads(s.arena, s'.arena) && SourceKept(s, s') && PairsKept(s, s') && s'.source == s.source
    ensures forall y :: y in s.source ==> y < |s.arena| && s'.arena[y] == s.arena[y]
    ensures d.Uses? && d.id !in s.inProgress && d.group in c.text.groups
  {
    hide LaidOutAll;
  }

  lemma CloneKnown(t: Text, l: seq<Def>, d: Def, g: seq<Def>, n: nat)
    requires IsGrouping(t, d, g) && SettlesOne(t, d, n)
    ensures n > 0 && Settles(t, g, n - 1)
    ensures KnownOne(t, d, n) ==> UsesKnownIn(t, g, n - 1)
  {
  }

  lemma GoesSame(t: Text, s: State, s': State, x: Ref, at: Spot, g: seq<Def>, n: nat)
    requires x in s.source && s'.source == s.source && Goes(t, s, x, at, FlattenIn(t, g, n), MetIn(t, g, n))
    ensures Goes(t, s', x, at, FlattenIn(t, g, n), MetIn(t, g, n))
  {
    hide FlattenIn, MetIn, Continues;
  }

  lemma CloneInv(c: Config, s: State, s': State, x: Ref, d: Def, at: Spot, n: nat, open: set<Ref>, own: bool)
    requires Sane(c, s) && Cloned(c, s, s', x, d)
    requires ItemReady(c.text, s, x, d, at, n, open, own)
    ensures Inv(c.text, s', open) && HasMet(c.text, s', x, at.ids + 1) && Placed(c.text, s', x, at.defs)
  {
    hide *;
    var s1 := s.(inProgress := s'.inProgress);
    CloneFrame(c, s, s', x, d);
    CloneRegisters(c, s, s', s1, x, d);
    ItemReadyIs(c.text, s, x, d, at, n, open, own);
    ReadyIs(c.text, s, x, at, open);
    UsesIsNext(c, s, x, d, at, n, open, own);
    PlacedIn(c.text, s, x, at.defs);
    PlacedKeeps(c.text, s, s', x, at.defs);
    RegisterKeeps(c.text, s, s1, open, x, at.ids, d.id);
    InvKeeps(c.text, s1, s', open, open);
    MetOfClone(c.text, s1, s', x, at.ids + 1);
  }

  lemma CloneRegisters(c: Config, s: State, s': State, s1: State, x: Ref, d: Def)
    requires Cloned(c, s, s', x, d) && s1 == s.(inProgress := s'.inProgress)
    ensures s1 == s.(inProgress := s.inProgress[d.id := x]) && SourceKept(s1, s') && s'.source == s1.source
    ensures s'.inProgress == s1.inProgress && s'.recursives == s1.recursives
  {
    hide LaidOutAll;
  }

  lemma MetOfClone(t: Text, s: State, s': State, x: Ref, k: nat)
    requires HasMet(t, s, x, k) && s'.source == s.source && s'.recursives == s.recursives
    requires Registered(s', x) == Registered(s, x)
    ensures HasMet(t, s', x, k)
  {
    hide Met, Registered;
  }

  lemma CloneGoes(t: Text, s: State, x: Ref, d: Def, g: seq<Def>, at: Spot, n: nat)
    requires x in s.source && IsGrouping(t, d, g) && n > 0
    requires Goes(t, s, x, at, FlattenOne(t, d, n), MetOne(t, d, n))
    ensures Goes(t, s, x, Spot(at.defs, at.ids + 1), FlattenIn(t, g, n - 1), MetIn(t, g, n - 1))
  {
    var rest := MetIn(t, g, n - 1);
    ContinuesNext(Met(t, s.source[x]), at.ids, [d.id] + rest, [d.id], rest);
  }

  lemma UsesAdded(c: Config, s': State, x: Ref, d: Def, g: seq<Def>, at: Spot, n: nat, open: set<Ref>)
    requires IsGrouping(c.text, d, g) && n > 0
    requires ListAdded(c.text, s', x, g, Spot(at.defs, at.ids + 1), n - 1, open, false)
    ensures ItemAdded(c.text, s', x, d, at, n, open)
  {
    UsesPast(c.text, d, g, at, n);
    hide *;
    ListAddedIs(c.text, s', x, g, Spot(at.defs, at.ids + 1), n - 1, open, false);
    ItemAddedIs(c.text, s', x, d, at, n, open);
  }

  lemma UsesPast(t: Text, d: Def, g: seq<Def>, at: Spot, n: nat)
    requires IsGrouping(t, d, g) && n > 0
    ensures Past(Spot(at.defs, at.ids + 1), FlattenIn(t, g, n - 1), MetIn(t, g, n - 1))
         == Past(at, FlattenOne(t, d, n), MetOne(t, d, n))
    ensures UsesKnownIn(t, g, n - 1) ==> KnownOne(t, d, n)
  {
  }

  // ---------- the module ----------

  lemma StartModule(c: Config, s: State, s': State, root: Ref, kind: Kind, ident: string)
    requires Sane(c, s) && Initial(c, s, root, kind, ident)
    requires s' == s.(arena := s.arena[root := s.arena[root].(defs := [])], source := map[root := c.text.main])
    ensures Sane(c, s') && Pending(c, s', root, root + 1, c.text.main)
    ensures Clean(c.text) ==> ListReady(c.text, s', root, c.text.main, START, |c.text.groups|, {root}, true)
  {
    assert s'.source == s.source[root := c.text.main];
    SaneAfterPop(c, s, s', root, c.text.main);
    LaidOutAllFrame(s.arena, s'.arena, root + 1, c.text.main);
    if Clean(c.text) {
      hide Sane, LaidOut, LaidOutAll, Clean;
      StartInv(c.text, s', root);
      FreshReady(c.text, s', root, c.text.main, {root});
    }
  }

  lemma StartInv(t: Text, s: State, root: Ref)
    requires s.inProgress == map[] && s.recursives == [] && s.source == map[root := t.main]
    ensures Inv(t, s, {root}) && Lowest(t, s, root, {root}) && Registered(s, root) == {} && !Duplicate(s, root)
  {
    assert Registered(s, root) == {};
  }

  // ---------- entering and leaving a node ----------

  lemma Entering(c: Config, s: State, s1: State, s2: State, x: Ref, r: Ref, d: Def, at: Spot, n: nat, open: set<Ref>,
                 own: bool)
    requires Sane(c, s) && PendingOne(c, s, x, r, d) && d.Node?
    requires Sane(c, s1) && Appended(s, s1, x, r) && Popped(s1, s2, r, d)
    requires Clean(c.text) ==> ItemReady(c.text, s, x, d, at, n, open, own)
    ensures Sane(c, s2) && Pending(c, s2, r, r + 1, d.body) && Grows(s, s2, x, r, r + 1)
    ensures At(r + 1, d.body, |d.body|) == r + Size(d) && Offset(d.body, |d.body|) < Size(d)
    ensures x in s.source && r !in s.source && s2.source == s.source[r := d.body] && s2.inProgress == s.inProgress
    ensures Clean(c.text) ==>
              && ListReady(c.text, s2, r, d.body, START, |c.text.groups|, open + {r}, true)
              && Waits(c.text, s2, x, at, open) && x < r && r !in open && x < |s2.arena|
  {
    hide *;
    PendingFacts(c, s, x, r, d);
    AppendedFacts(s, s1, x, r);
    PoppedFacts(s1, s2, r, d);
    SaneAfterPop(c, s1, s2, r, d.body);
    EnterNode(c, s, s1, s2, x, r, d);
    if Clean(c.text) {
      NodeEntered(c, s, s1, s2, x, r, d, at, n, open, own);
    }
  }

  lemma PoppedFacts(s: State, s': State, r: Ref, d: Def)
    requires Popped(s, s', r, d)
    ensures r < |s.arena| && s.arena[r].NodeCell? && s'.inProgress == s.inProgress
    ensures s' == s.(arena := s.arena[r := s.arena[r].(defs := [])], source := s.source[r := d.body])
  {
  }

  lemma Leaving(c: Config, s: State, s2: State, s3: State, x: Ref, r: Ref, d: Def, at: Spot, n: nat, open: set<Ref>,
                own: bool, out: Outcome)
    requires d.Node? && x in s.source && r !in s.source && r in s2.source && s2.source[r] == d.body
    requires Grows(s, s2, x, r, r + 1) && Grows(s2, s3, r, r + 1, r + Size(d))
    requires Clean(c.text) ==>
               && ItemReady(c.text, s, x, d, at, n, open, own)
               && Waits(c.text, s2, x, at, open) && x < r && r !in open && x < |s2.arena|
    requires Clean(c.text) && out.Done? ==>
               ListAdded(c.text, s3, r, d.body, START, |c.text.groups|, open + {r}, true)
    requires Clean(c.text) && !out.Done? ==> r in s3.source && !AlwaysSound(c.text, s3.source[r])
    ensures Grows(s, s3, x, r, r + Size(d)) && x in s3.source
    ensures Clean(c.text) && out.Done? ==> ItemAdded(c.text, s3, x, d, at, n, open)
    ensures Clean(c.text) && !out.Done? ==> !AlwaysSound(c.text, s3.source[x])
  {
    SizeIsMore(d);
    hide *;
    GrowsTrans(s, s2, s3, x, r, r + 1, r, r + 1, r + Size(d), r, r + Size(d));
    GrowsRegistry(s, s3, x, r, r + Size(d));
    GrowsRegistry(s2, s3, r, r + 1, r + Size(d));
    if Clean(c.text) {
      if out.Done? {
        AddedOwn(c.text, s3, r, d.body, START, |c.text.groups|, open + {r});
        NodeLeft(c.text, s2, s3, x, r, d, at, n, open, r + Size(d));
      } else {
        UnsoundBelow(c.text, s, x, d, at, n, open, own);
      }
    }
  }

  lemma SizeIsMore(d: Def)
    ensures Size(d) > 0
  {
  }

  lemma AddedOwn(t: Text, s: State, x: Ref, ds: seq<Def>, at: Spot, n: nat, open: set<Ref>)
    requires ListAdded(t, s, x, ds, at, n, open, true)
    ensures Inv(t, s, open - {x})
  {
  }

  // ---------- going on with the clones of a grouping ----------

  lemma Cloning(c: Config, s: State, s1: State, x: Ref, r: Ref, d: Def, at: Spot, n: nat, open: set<Ref>, own: bool)
    requires Sane(c, s) && PendingOne(c, s, x, r, d) && d.Uses? && Cloned(c, s, s1, x, d)
    requires Clean(c.text) ==> ItemReady(c.text, s, x, d, at, n, open, own)
    ensures d.group in c.text.groups && Sane(c, s1) && Pending(c, s1, x, |s.arena|, c.text.groups[d.group])
    ensures Grows(s, s1, x, r, r + Size(d)) && d.id in Universe(c.text) - s.inProgress.Keys
    ensures s1.inProgress == s.inProgress[d.id := x] && x in s1.source
    ensures |s1.arena| == At(|s.arena|, c.text.groups[d.group], |c.text.groups[d.group]|)
    ensures Clean(c.text) ==>
              && n > 0 && ListReady(c.text, s1, x, c.text.groups[d.group], Spot(at.defs, at.ids + 1), n - 1, open,
                                    false)
  {
    hide *;
    PendingFacts(c, s, x, r, d);
    UsesFacts(c, s, x, r, d);
    ClonedFacts(c, s, s1, x, d);
    IsUsesIs(s, x, r, d);
    ClonePending(c, s, s1, x, r, d, r + Size(d));
    if Clean(c.text) {
      IsGroupingIs(c.text, d, c.text.groups[d.group]);
      CloneReady(c, s, s1, x, d, c.text.groups[d.group], at, n, open, own);
    }
  }

  lemma IsUsesIs(s: State, x: Ref, r: Ref, d: Def)
    requires d.Uses? && x in s.source && x < r < |s.arena| && s.arena[r] == UsesCell(d.id, d.group)
    ensures IsUses(s, x, r, d)
  {
  }

  lemma IsGroupingIs(t: Text, d: Def, g: seq<Def>)
    requires d.Uses? && d.group in t.groups && g == t.groups[d.group]
    ensures IsGrouping(t, d, g)
  {
  }

  lemma ClonedFacts(c: Config, s: State, s1: State, x: Ref, d: Def)
    requires Cloned(c, s, s1, x, d)
    ensures d.Uses? && d.id !in s.inProgress && d.group in c.text.groups
    ensures s1.inProgress == s.inProgress[d.id := x] && s1.source == s.source
    ensures |s1.arena| == At(|s.arena|, c.text.groups[d.group], |c.text.groups[d.group]|)
  {
  }

  lemma ClonesAdded(c: Config, s: State, s1: State, s2: State, x: Ref, r: Ref, d: Def, at: Spot, n: nat, open: set<Ref>,
                    out: Outcome)
    requires d.Uses? && d.group in c.text.groups
    requires Grows(s, s1, x, r, r + Size(d)) && Grows(s1, s2, x, |s.arena|, |s1.arena|)
    requires Clean(c.text) && out.Done? ==>
               && n > 0
               && ListAdded(c.text, s2, x, c.text.groups[d.group], Spot(at.defs, at.ids + 1), n - 1, open, false)
    ensures Grows(s, s2, x, r, r + Size(d))
    ensures Clean(c.text) && out.Done? ==> ItemAdded(c.text, s2, x, d, at, n, open)
  {
    hide *;
    GrowsTrans(s, s1, s2, x, r, r + Size(d), x, |s.arena|, |s1.arena|, r, r + Size(d));
    if Clean(c.text) && out.Done? {
      IsGroupingIs(c.text, d, c.text.groups[d.group]);
      UsesAdded(c, s2, x, d, c.text.groups[d.group], at, n, open);
    }
  }
}
