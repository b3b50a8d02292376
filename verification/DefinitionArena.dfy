/** Definition objects in memory, and the invariants the resolver keeps over them. */
module DefinitionArena {
  import opened SchemaText

  type Ref = nat

  datatype Cell =
    | LeafCell(ident: string)
    | UsesCell(id: nat, group: string)
    | NodeCell(kind: Kind, ident: string, defs: seq<Ref>, recursive: bool)

  function CellName(c: Cell): string {
    if c.UsesCell? then c.group else c.ident
  }

  // ---------- untouched definitions ----------

  ghost function Size(d: Def): nat
    ensures Size(d) >= 1
  {
    if d.Node? then 1 + Offset(d.body, |d.body|) else 1
  }

  ghost function Offset(ds: seq<Def>, i: nat): nat
    requires i <= |ds|
    decreases ds, i
  {
    if i == 0 then 0 else Offset(ds, i - 1) + Size(ds[i - 1])
  }

  /** Where the `i`-th of the definitions `ds`, written down from `lo` on, starts. */
  ghost function At(lo: Ref, ds: seq<Def>, i: nat): Ref
    requires i <= |ds|
  {
    lo + Offset(ds, i)
  }

  ghost function Refs(lo: Ref, ds: seq<Def>): seq<Ref> {
    seq(|ds|, i requires 0 <= i < |ds| => At(lo, ds, i))
  }

  /** The cells from `r` on hold the untouched definition `d`, numbered parent first. */
  ghost predicate LaidOut(a: seq<Cell>, r: Ref, d: Def)
    decreases d, 0
  {
    match d
    case Leaf(ident) => r < |a| && a[r] == LeafCell(ident)
    case Uses(id, group) => r < |a| && a[r] == UsesCell(id, group)
    case Node(kind, ident, body) =>
      r < |a| && a[r] == NodeCell(kind, ident, Refs(r + 1, body), false) && LaidOutAll(a, r + 1, body)
  }

  ghost predicate LaidOutAll(a: seq<Cell>, lo: Ref, ds: seq<Def>)
    decreases ds, 1
  {
    && At(lo, ds, |ds|) <= |a|
    && forall i {:trigger At(lo, ds, i)} :: 0 <= i < |ds| ==> LaidOut(a, At(lo, ds, i), ds[i])
  }

  ghost predicate Extends(a: seq<Cell>, b: seq<Cell>) {
    |a| <= |b| && forall k :: 0 <= k < |a| ==> a[k] == b[k]
  }

  ghost predicate LaidOutUpto(a: seq<Cell>, lo: Ref, ds: seq<Def>, n: nat)
    requires n <= |ds|
  {
    forall i {:trigger At(lo, ds, i)} :: 0 <= i < n ==> LaidOut(a, At(lo, ds, i), ds[i])
  }

  lemma {:induction false} OffsetMonotone(ds: seq<Def>, i: nat, j: nat)
    requires i <= j <= |ds|
    ensures Offset(ds, i) <= Offset(ds, j)
    ensures i < j ==> Offset(ds, i) + Size(ds[i]) <= Offset(ds, j)
    decreases j
  {
    if i < j {
      OffsetMonotone(ds, i, j - 1);
    }
  }

  lemma {:induction false} LaidOutFrame(a: seq<Cell>, b: seq<Cell>, r: Ref, d: Def)
    requires LaidOut(a, r, d)
    requires r + Size(d) <= |b|
    requires forall k :: r <= k < r + Size(d) ==> k < |a| && a[k] == b[k]
    ensures LaidOut(b, r, d)
    decreases d, 0
  {
    if d.Node? {
      LaidOutAllFrame(a, b, r + 1, d.body);
    }
  }

  lemma {:induction false} LaidOutAllFrame(a: seq<Cell>, b: seq<Cell>, lo: Ref, ds: seq<Def>)
    requires LaidOutAll(a, lo, ds)
    requires At(lo, ds, |ds|) <= |b|
    requires forall k :: lo <= k < At(lo, ds, |ds|) ==> a[k] == b[k]
    ensures LaidOutAll(b, lo, ds)
    decreases ds, 1
  {
    forall i | 0 <= i < |ds| ensures LaidOut(b, At(lo, ds, i), ds[i]) {
      OffsetMonotone(ds, i, |ds|);
      LaidOutFrame(a, b, At(lo, ds, i), ds[i]);
    }
  }

  lemma LaidOutUptoKeeps(a: seq<Cell>, b: seq<Cell>, lo: Ref, ds: seq<Def>, n: nat)
    requires n <= |ds| && LaidOutUpto(a, lo, ds, n)
    requires At(lo, ds, n) <= |a| && Extends(a, b)
    ensures LaidOutUpto(b, lo, ds, n)
  {
    forall i | 0 <= i < n ensures LaidOut(b, At(lo, ds, i), ds[i]) {
      OffsetMonotone(ds, i, n);
      LaidOutFrame(a, b, At(lo, ds, i), ds[i]);
    }
  }

  lemma LaidOutPart(a: seq<Cell>, b: seq<Cell>, lo: Ref, ds: seq<Def>, i: nat)
    requires i < |ds| && LaidOutAll(a, lo, ds) && Extends(a, b)
    ensures LaidOut(b, At(lo, ds, i), ds[i])
  {
    OffsetMonotone(ds, i, |ds|);
    LaidOutFrame(a, b, At(lo, ds, i), ds[i]);
  }
}
