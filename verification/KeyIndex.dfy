/**
  Lists backed by a slice (nodeutil/reflect.go): items are looked up by key through an index that is sorted once and
  kept until the list changes.
*/
module KeyIndex {
  import opened Wrappers

  type Compare<!V> = (V, V) -> int

  // ---------- comparing keys ----------

  /** The comparison of values is a total order that agrees with their equality. */
  ghost predicate Order<V(!new)>(cmp: Compare<V>) {
    && (forall a, b :: cmp(a, b) == 0 <==> a == b)
    && (forall a, b :: cmp(a, b) < 0 <==> cmp(b, a) > 0)
    && (forall a, b, c :: cmp(a, b) <= 0 && cmp(b, c) <= 0 ==> cmp(a, c) <= 0)
  }

  /** Keys are compared value by value. */
  function CompareVals<V>(cmp: Compare<V>, a: seq<V>, b: seq<V>): int
    requires |a| == |b|
  {
    if a == [] then 0
    else if cmp(a[0], b[0]) != 0 then cmp(a[0], b[0])
    else CompareVals(cmp, a[1..], b[1..])
  }

  lemma {:induction false} CompareEqual<V(!new)>(cmp: Compare<V>, a: seq<V>, b: seq<V>)
    requires Order(cmp) && |a| == |b|
    ensures CompareVals(cmp, a, b) == 0 <==> a == b
  {
    if a != [] {
      CompareEqual(cmp, a[1..], b[1..]);
      assert a == [a[0]] + a[1..] && b == [b[0]] + b[1..];
    }
  }

  lemma {:induction false} CompareSwap<V(!new)>(cmp: Compare<V>, a: seq<V>, b: seq<V>)
    requires Order(cmp) && |a| == |b|
    ensures CompareVals(cmp, a, b) < 0 <==> CompareVals(cmp, b, a) > 0
  {
    if a != [] {
      CompareSwap(cmp, a[1..], b[1..]);
    }
  }

  lemma {:induction false} CompareThrough<V(!new)>(cmp: Compare<V>, a: seq<V>, b: seq<V>, c: seq<V>)
    requires Order(cmp) && |a| == |b| == |c|
    requires CompareVals(cmp, a, b) <= 0 && CompareVals(cmp, b, c) <= 0
    ensures CompareVals(cmp, a, c) <= 0
  {
    if a != [] {
      var x, y, z := a[0], b[0], c[0];
      assert cmp(x, y) <= 0 && cmp(y, z) <= 0 && cmp(x, z) <= 0;
      if cmp(x, z) == 0 {
        assert cmp(z, x) == 0;
        Squeezed(cmp, x, y);
        CompareThrough(cmp, a[1..], b[1..], c[1..]);
      }
    }
  }

  lemma Squeezed<V(!new)>(cmp: Compare<V>, x: V, y: V)
    requires Order(cmp) && cmp(x, y) <= 0 && cmp(y, x) <= 0
    ensures x == y
  {
  }

  predicate EqualVals<V>(cmp: Compare<V>, a: seq<V>, b: seq<V>) {
    |a| == |b| && (a == [] || (cmp(a[0], b[0]) == 0 && EqualVals(cmp, a[1..], b[1..])))
  }

  lemma {:induction false} EqualIs<V(!new)>(cmp: Compare<V>, a: seq<V>, b: seq<V>)
    requires Order(cmp)
    ensures EqualVals(cmp, a, b) <==> a == b
  {
    if |a| == |b| && a != [] {
      EqualIs(cmp, a[1..], b[1..]);
      assert a == [a[0]] + a[1..] && b == [b[0]] + b[1..];
    }
  }

  // ---------- the index ----------

  class Item<V> {
    var key: seq<V>

    constructor (key: seq<V>)
      ensures this.key == key
    {
      this.key := key;
    }
  }

  datatype Entry<V> = Entry(key: seq<V>, pos: nat)

  ghost predicate Sorted<V(!new)>(cmp: Compare<V>, es: seq<Entry<V>>, n: nat) {
    && (forall i :: 0 <= i < |es| ==> |es[i].key| == n)
    && (forall i, j :: 0 <= i < j < |es| ==> CompareVals(cmp, es[i].key, es[j].key) <= 0)
  }

  ghost predicate HasPos<V>(es: seq<Entry<V>>, p: nat) {
    exists i :: 0 <= i < |es| && es[i].pos == p
  }

  /** The entries are those of the first `upto` keys. */
  ghost predicate Covers<V>(es: seq<Entry<V>>, keys: seq<seq<V>>, upto: nat) {
    && upto <= |keys|
    && (forall i :: 0 <= i < |es| ==> es[i].pos < upto && es[i].key == keys[es[i].pos])
    && (forall p :: 0 <= p < upto ==> HasPos(es, p))
  }

  ghost predicate AllOf<V>(keys: seq<seq<V>>, n: nat) {
    forall i :: 0 <= i < |keys| ==> |keys[i]| == n
  }

  /** Puts an entry where it belongs, looking from the end. */
  method Insert<V(!new)>(cmp: Compare<V>, es: seq<Entry<V>>, e: Entry<V>, ghost n: nat) returns (r: seq<Entry<V>>)
    requires Order(cmp) && Sorted(cmp, es, n) && |e.key| == n
    ensures Sorted(cmp, r, n)
    ensures exists j :: 0 <= j <= |es| && r == es[..j] + [e] + es[j..]
  {
    var j := |es|;
    hide Order, CompareVals;
    while j > 0 && CompareVals(cmp, e.key, es[j - 1].key) < 0
      invariant 0 <= j <= |es|
      invariant forall k :: j <= k < |es| ==> CompareVals(cmp, e.key, es[k].key) <= 0
    {
      j := j - 1;
    }
    NotGreater(cmp, es, e, j, n);
    r := es[..j] + [e] + es[j..];
    SortedBetween(cmp, es, e, j, r, n);
  }

  lemma NotGreater<V(!new)>(cmp: Compare<V>, es: seq<Entry<V>>, e: Entry<V>, j: nat, n: nat)
    requires Order(cmp) && Sorted(cmp, es, n) && |e.key| == n && j <= |es|
    requires j > 0 ==> CompareVals(cmp, e.key, es[j - 1].key) >= 0
    ensures forall k :: 0 <= k < j ==> CompareVals(cmp, es[k].key, e.key) <= 0
  {
    forall k | 0 <= k < j ensures CompareVals(cmp, es[k].key, e.key) <= 0 {
      hide Order, CompareVals;
      CompareSwap(cmp, e.key, es[j - 1].key);
      CompareSwap(cmp, es[j - 1].key, e.key);
      if k < j - 1 {
        CompareThrough(cmp, es[k].key, es[j - 1].key, e.key);
      }
    }
  }

  lemma SortedBetween<V(!new)>(cmp: Compare<V>, es: seq<Entry<V>>, e: Entry<V>, j: nat, r: seq<Entry<V>>, n: nat)
    requires Sorted(cmp, es, n) && |e.key| == n && j <= |es| && r == es[..j] + [e] + es[j..]
    requires forall k :: 0 <= k < j ==> CompareVals(cmp, es[k].key, e.key) <= 0
    requires forall k :: j <= k < |es| ==> CompareVals(cmp, e.key, es[k].key) <= 0
    ensures Sorted(cmp, r, n)
  {
    hide CompareVals;
  }

  lemma InsertCovers<V>(es: seq<Entry<V>>, keys: seq<seq<V>>, i: nat, j: nat, r: seq<Entry<V>>)
    requires i < |keys| && Covers(es, keys, i) && j <= |es| && r == es[..j] + [Entry(keys[i], i)] + es[j..]
    ensures Covers(r, keys, i + 1)
  {
    forall p | 0 <= p < i + 1 ensures HasPos(r, p) {
      if p == i {
        assert r[j].pos == i;
      } else {
        assert HasPos(es, p);
        var k :| 0 <= k < |es| && es[k].pos == p;
        assert r[if k < j then k else k + 1] == es[k];
      }
    }
  }

  /** sort.Search: the first entry whose key is not less. */
  method Search<V(!new)>(cmp: Compare<V>, es: seq<Entry<V>>, key: seq<V>) returns (found: nat)
    requires Order(cmp) && Sorted(cmp, es, |key|)
    ensures found <= |es|
    ensures forall i :: 0 <= i < found ==> CompareVals(cmp, es[i].key, key) < 0
    ensures forall i :: found <= i < |es| ==> CompareVals(cmp, es[i].key, key) >= 0
  {
    var i, j := 0, |es|;
    while i < j
      invariant 0 <= i <= j <= |es|
      invariant forall k :: 0 <= k < i ==> CompareVals(cmp, es[k].key, key) < 0
      invariant forall k :: j <= k < |es| ==> CompareVals(cmp, es[k].key, key) >= 0
    {
      var h := (i + j) / 2;
      if CompareVals(cmp, es[h].key, key) >= 0 {
        forall k | h <= k < |es| ensures CompareVals(cmp, es[k].key, key) >= 0 {
          UpFrom(cmp, es, key, h, k);
        }
        j := h;
      } else {
        forall k | 0 <= k <= h ensures CompareVals(cmp, es[k].key, key) < 0 {
          if k < h && CompareVals(cmp, es[k].key, key) >= 0 {
            UpFrom(cmp, es, key, k, h);
          }
        }
        i := h + 1;
      }
    }
    found := i;
  }

  lemma UpFrom<V(!new)>(cmp: Compare<V>, es: seq<Entry<V>>, key: seq<V>, h: nat, k: nat)
    requires Order(cmp) && Sorted(cmp, es, |key|) && h <= k < |es| && CompareVals(cmp, es[h].key, key) >= 0
    ensures CompareVals(cmp, es[k].key, key) >= 0
  {
    CompareSwap(cmp, es[h].key, key);
    CompareSwap(cmp, key, es[h].key);
    CompareSwap(cmp, es[k].key, key);
    if h < k {
      CompareThrough(cmp, key, es[h].key, es[k].key);
    }
  }

  /** Through a sorted index that covers the keys, a key is found just where it is. */
  lemma FoundRight<V(!new)>(cmp: Compare<V>, es: seq<Entry<V>>, keys: seq<seq<V>>, key: seq<V>, found: nat)
    requires Order(cmp) && Sorted(cmp, es, |key|) && Covers(es, keys, |keys|)
    requires found <= |es|
    requires forall i :: 0 <= i < found ==> CompareVals(cmp, es[i].key, key) < 0
    requires forall i :: found <= i < |es| ==> CompareVals(cmp, es[i].key, key) >= 0
    ensures (found < |es| && es[found].key == key) <==> key in keys
    ensures found < |es| && es[found].key == key ==> es[found].pos < |keys| && keys[es[found].pos] == key
  {
    if key in keys {
      var p :| 0 <= p < |keys| && keys[p] == key;
      assert HasPos(es, p);
      var i :| 0 <= i < |es| && es[i].pos == p;
      FirstIsEqual(cmp, es, key, found, i);
    }
  }

  lemma FirstIsEqual<V(!new)>(cmp: Compare<V>, es: seq<Entry<V>>, key: seq<V>, found: nat, i: nat)
    requires Order(cmp) && Sorted(cmp, es, |key|) && i < |es| && es[i].key == key
    requires found <= |es| && forall k :: 0 <= k < found ==> CompareVals(cmp, es[k].key, key) < 0
    requires forall k :: found <= k < |es| ==> CompareVals(cmp, es[k].key, key) >= 0
    ensures found < |es| && es[found].key == key
  {
    hide Order, CompareVals;
    CompareEqual(cmp, key, key);
    assert found <= i;
    CompareEqual(cmp, es[found].key, key);
    CompareSwap(cmp, key, es[found].key);
    assert found == i || CompareVals(cmp, es[found].key, es[i].key) <= 0;
  }

  // ---------- the slice itself ----------

  /** Looking through the slice from the front. */
  function Scan<V(==)>(keys: seq<seq<V>>, key: seq<V>, from: nat): Option<nat>
    requires from <= |keys|
    decreases |keys| - from
  {
    if from == |keys| then None else if keys[from] == key then Some(from) else Scan(keys, key, from + 1)
  }

  ghost predicate Distinct<V>(keys: seq<seq<V>>) {
    forall i, j :: 0 <= i < j < |keys| ==> keys[i] != keys[j]
  }

  lemma {:induction false} ScanIs<V>(keys: seq<seq<V>>, key: seq<V>, from: nat)
    requires from <= |keys|
    ensures match Scan(keys, key, from)
            case None => forall i :: from <= i < |keys| ==> keys[i] != key
            case Some(p) => from <= p < |keys| && keys[p] == key && forall i :: from <= i < p ==> keys[i] != key
    decreases |keys| - from
  {
    if from < |keys| && keys[from] != key {
      ScanIs(keys, key, from + 1);
    }
  }

  ghost function KeysOf<V>(items: seq<Item<V>>): (r: seq<seq<V>>)
    reads items
    ensures |r| == |items| && forall i :: 0 <= i < |r| ==> r[i] == items[i].key
    decreases |items|
  {
    if items == [] then [] else KeysOf(items[..|items| - 1]) + [items[|items| - 1].key]
  }

  lemma {:induction false} KeysAppend<V>(a: seq<Item<V>>, b: seq<Item<V>>)
    ensures KeysOf(a + b) == KeysOf(a) + KeysOf(b)
    decreases |b|
  {
    if b == [] {
      assert a + b == a;
    } else {
      assert (a + b)[..|a + b| - 1] == a + b[..|b| - 1];
      KeysAppend(a, b[..|b| - 1]);
    }
  }

  lemma KeysWithout<V>(items: seq<Item<V>>, p: nat, n: nat)
    requires p < |items|
    ensures KeysOf(items[..p] + items[p + 1..]) == KeysOf(items)[..p] + KeysOf(items)[p + 1..]
    ensures AllOf(KeysOf(items), n) ==> AllOf(KeysOf(items[..p] + items[p + 1..]), n)
  {
    hide *;
    var a, b, c := items[..p], [items[p]], items[p + 1..];
    Parts(items, a, b, c, p);
    KeysAppend(a, b + c);
    KeysAppend(b, c);
    KeysAppend(a, c);
    Parts(KeysOf(items), KeysOf(a), KeysOf(b), KeysOf(c), p);
    WithoutOne(KeysOf(items), p, n);
  }

  lemma Parts<T>(all: seq<T>, a: seq<T>, b: seq<T>, c: seq<T>, p: nat)
    requires p < |all|
    ensures a == all[..p] && b == [all[p]] && c == all[p + 1..] ==> all == a + (b + c)
    ensures all == a + (b + c) && |a| == p && |b| == 1 ==> all[..p] == a && all[p + 1..] == c
  {
  }

  lemma WithoutOne<V>(keys: seq<seq<V>>, p: nat, n: nat)
    requires p < |keys|
    ensures AllOf(keys, n) ==> AllOf(keys[..p] + keys[p + 1..], n)
  {
  }

  /** The items without one of the given key. */
  ghost predicate WithoutKey<V>(items: seq<Item<V>>, keys: seq<seq<V>>, key: seq<V>, left: seq<Item<V>>) {
    exists p :: 0 <= p < |items| && p < |keys| && keys[p] == key && left == items[..p] + items[p + 1..]
  }

  lemma RemovedAt<V>(items: seq<Item<V>>, p: nat, key: seq<V>)
    requires p < |items| && KeysOf(items)[p] == key
    ensures WithoutKey(items, KeysOf(items), key, items[..p] + items[p + 1..])
  {
  }

  datatype Reply<V> = Gone | At(pos: nat, key: seq<V>) | Panics

  class ListNode<V(!new)> {
    const cmp: Compare<V>
    const onChange: bool  // a function was given to be told of changes
    const width: nat      // how many leafs make up a key
    var items: seq<Item<V>>
    var entries: Option<seq<Entry<V>>>
    ghost var told: seq<seq<Item<V>>>  // what the function has been told

    constructor (cmp: Compare<V>, width: nat, onChange: bool, items: seq<Item<V>>)
      requires Order(cmp) && AllOf(KeysOf(items), width)
      ensures Valid() && this.items == items && this.cmp == cmp && this.width == width && this.onChange == onChange
    {
      this.cmp, this.width, this.onChange, this.items := cmp, width, onChange, items;
      entries, told := None, [];
    }

    /** Keys are of one width, and while there is an index they are those it was made of. */
    ghost predicate Valid()
      reads this, items
    {
      && Order(cmp) && AllOf(KeysOf(items), width)
      && (entries.Some? ==> Sorted(cmp, entries.value, width) && Covers(entries.value, KeysOf(items), |items|))
    }

    ghost function Keys(): seq<seq<V>>
      reads this, items
    {
      KeysOf(items)
    }

    method BuildKeys() returns (es: seq<Entry<V>>)
      requires Valid()
      ensures Sorted(cmp, es, width) && Covers(es, Keys(), |items|)
    {
      ghost var keys := Keys();
      es := [];
      var i := 0;
      while i < |items|
        invariant i <= |items| && Sorted(cmp, es, width) && Covers(es, keys, i)
      {
        ghost var before := es;
        es := Insert(cmp, es, Entry(items[i].key, i), width);
        ghost var j :| 0 <= j <= |before| && es == before[..j] + [Entry(keys[i], i)] + before[j..];
        InsertCovers(before, keys, i, j, es);
        i := i + 1;
      }
    }

    /** A new item at the end; its key leafs hold what they hold before they are set. */
    method New(item: Item<V>, key: seq<V>) returns (r: Reply<V>)
      requires Valid() && |item.key| == width
      modifies this
      ensures Valid() && items == old(items) + [item] && entries == None && r == At(|old(items)|, key)
      ensures told == old(told) + if onChange then [items] else []
    {
      hide Order;
      items := items + [item];
      assert KeysOf(items) == KeysOf(old(items)) + [item.key];
      if onChange {
        told := told + [items];
      }
      entries := None;
      r := At(|items| - 1, key);
    }

    /** The edit writes the key leafs of the item that was appended last. */
    method SetKey(key: seq<V>)
      requires Valid() && entries.None? && items != [] && |key| == width && items[|items| - 1] !in items[..|items| - 1]
      modifies items[|items| - 1]
      ensures Valid() && Keys() == old(Keys())[..|items| - 1] + [key]
    {
      var n := |items| - 1;
      var last := items[n];
      ghost var keys := Keys();
      last.key := key;
      forall i | 0 <= i < n ensures Keys()[i] == keys[i] {
        assert items[i] == items[..n][i];
      }
      hide Order;
      assert Keys() == keys[..n] + [key];
    }

    method Find(key: seq<V>) returns (pos: Option<nat>)
      requires Valid() && |key| == width
      modifies this`entries
      ensures Valid() && Keys() == old(Keys()) && entries.Some?
      ensures pos.Some? <==> key in Keys()
      ensures pos.Some? ==> pos.value < |items| && Keys()[pos.value] == key
      ensures Distinct(Keys()) ==> pos == Scan(Keys(), key, 0)
    {
      hide Order, CompareVals, KeysOf;
      if entries.None? {
        var es := BuildKeys();
        entries := Some(es);
      }
      var found := Search(cmp, entries.value, key);
      FoundRight(cmp, entries.value, Keys(), key, found);
      pos := None;
      if found < |entries.value| {
        EqualIs(cmp, entries.value[found].key, key);
      }
      if found < |entries.value| && EqualVals(cmp, entries.value[found].key, key) {
        pos := Some(entries.value[found].pos);
      }
      ScanIs(Keys(), key, 0);
    }

    /** Removes the item of a key, keeping the order of the others; without a function to tell this crashes. */
    method Delete(key: seq<V>) returns (r: Reply<V>)
      requires Valid() && |key| == width
      modifies this
      ensures key !in old(Keys()) ==> Valid() && r == Gone && items == old(items) && told == old(told)
      ensures key in old(Keys()) && onChange ==>
                && Valid() && r == Gone && entries == None && told == old(told) + [items]
                && WithoutKey(old(items), old(Keys()), key, items)
      ensures key in old(Keys()) && !onChange ==> r == Panics
    {
      hide Order, Sorted, Covers, KeysOf, WithoutKey;
      var pos := Find(key);
      if pos.None? {
        return Gone;
      }
      var p := pos.value;
      KeysWithout(items, p, width);
      RemovedAt(items, p, key);
      items := items[..p] + items[p + 1..];
      if !onChange {
        return Panics;
      }
      told := told + [items];
      entries := None;
      r := Gone;
    }

    /** The item of a row. */
    method Row(row: nat) returns (r: Reply<V>)
      requires Valid()
      ensures r == if row < |items| then At(row, Keys()[row]) else Gone
    {
      if row < |items| {
        return At(row, items[row].key);
      }
      return Gone;
    }

    /** One operation, which does what it may do to a plain list of keys. */
    method Apply(op: Op<V>) returns (r: Reply<V>, ghost after: seq<seq<V>>)
      requires Valid() && Wide(op, width)
      modifies this
      ensures Does(op, old(Keys()), onChange, r, after)
      ensures !r.Panics? ==> Valid() && Keys() == after
    {
      match op
      case Add(unset, key) =>
        r := ApplyAdd(unset, key);
        after := Keys();
      case Drop(key) =>
        r, after := ApplyDrop(key);
      case Lookup(key) =>
        hide KeysOf, Sorted, Covers, Order, AllOf;
        var pos := Find(key);
        r := if pos.Some? then At(pos.value, key) else Gone;
        after := Keys();
      case Read(row) =>
        r := Row(row);
        after := Keys();
    }

    /** An item is appended, and then its key is written. */
    method ApplyAdd(unset: seq<V>, key: seq<V>) returns (r: Reply<V>)
      requires Valid() && |unset| == width && |key| == width
      modifies this
      ensures Valid() && Keys() == old(Keys()) + [key] && r == At(|old(Keys())|, key)
    {
      hide KeysOf, Sorted, Covers, Order, AllOf;
      ghost var before, keys := items, Keys();
      var item := new Item(unset);
      r := New(item, key);
      KeysAppend(before, [item]);
      assert items[..|items| - 1] == before && Keys()[..|keys|] == keys;
      SetKey(key);
    }

    method ApplyDrop(key: seq<V>) returns (r: Reply<V>, ghost after: seq<seq<V>>)
      requires Valid() && |key| == width
      modifies this
      ensures Does(Drop(key), old(Keys()), onChange, r, after)
      ensures !r.Panics? ==> Valid() && Keys() == after
    {
      ghost var before, keys := items, Keys();
      hide KeysOf, Sorted, Covers, Order, AllOf, WithoutKey;
      r := Delete(key);
      if key in keys && onChange {
        after := Dropped(before, items, key);
      } else if key in keys {
        after := SomeDrop(keys, key);
      } else {
        after := keys;
      }
    }

    /** Any run of operations gets replies that a plain list of keys gives, up to a crash if there is one. */
    method Run(ops: seq<Op<V>>) returns (rs: seq<Reply<V>>, ghost after: seq<seq<V>>)
      requires Valid() && forall i :: 0 <= i < |ops| ==> Wide(ops[i], width)
      modifies this
      ensures RunsAs(ops, old(Keys()), onChange, rs, after)
      ensures Panics !in rs ==> Valid() && Keys() == after
    {
      rs, after := [], Keys();
      ghost var keys := Keys();
      OnwardStarts(ops, keys, onChange);
      hide Keys, Valid, Does, RunsAs, Onward, Wide;
      var i := 0;
      while i < |ops|
        invariant i <= |ops| && Valid() && Keys() == after && Panics !in rs
        invariant Onward(ops, keys, onChange, i, rs, after)
      {
        ghost var now, mid := after, after;
        var r;
        r, mid := Apply(ops[i]);
        OnwardNext(ops, keys, onChange, i, rs, now, r, mid);
        rs, after := rs + [r], mid;
        if r.Panics? {
          return;
        }
        i := i + 1;
      }
      OnwardEnds(ops, keys, onChange, rs, after);
    }
  }

  // ---------- the plain list ----------

  /**
    An item is appended with its key leafs unset, which are written then; or a key is deleted or looked up, or a row
    read.
  */
  datatype Op<V> = Add(unset: seq<V>, key: seq<V>) | Drop(key: seq<V>) | Lookup(key: seq<V>) | Read(row: nat)

  /** Keys have the right width. */
  predicate Wide<V>(op: Op<V>, n: nat) {
    match op
    case Add(unset, key) => |unset| == n && |key| == n
    case Drop(key) => |key| == n
    case Lookup(key) => |key| == n
    case Read(_) => true
  }

  ghost predicate Removed<V>(keys: seq<seq<V>>, key: seq<V>, left: seq<seq<V>>) {
    exists p :: 0 <= p < |keys| && keys[p] == key && left == keys[..p] + keys[p + 1..]
  }

  /**
    What an operation may do to a plain list, and reply: where several items have a key, any of them is meant. Without a
    function to tell a removal crashes.
  */
  ghost predicate Does<V>(op: Op<V>, keys: seq<seq<V>>, tells: bool, r: Reply<V>, after: seq<seq<V>>) {
    match op
    case Add(_, key) => after == keys + [key] && r == At(|keys|, key)
    case Drop(key) =>
      if key in keys then Removed(keys, key, after) && r == (if tells then Gone else Panics)
      else after == keys && r == Gone
    case Lookup(key) =>
      after == keys && if key in keys then r.At? && r.key == key && r.pos < |keys| && keys[r.pos] == key else r == Gone
    case Read(row) => after == keys && r == if row < |keys| then At(row, keys[row]) else Gone
  }

  ghost predicate RunsAs<V(!new)>(ops: seq<Op<V>>, keys: seq<seq<V>>, tells: bool, rs: seq<Reply<V>>,
                                  after: seq<seq<V>>) {
    if ops == [] then rs == [] && after == keys
    else
      rs != [] && exists mid: seq<seq<V>> ::
        Does(ops[0], keys, tells, rs[0], mid)
        && if rs[0].Panics? then rs[1..] == [] && after == mid else RunsAs(ops[1..], mid, tells, rs[1..], after)
  }

  /** Whatever comes of the operations that are left comes of all of them. */
  ghost predicate Onward<V(!new)>(ops: seq<Op<V>>, keys: seq<seq<V>>, tells: bool, i: nat, rs: seq<Reply<V>>,
                                  now: seq<seq<V>>)
    requires i <= |ops|
  {
    forall more, after :: RunsAs(ops[i..], now, tells, more, after) ==> RunsAs(ops, keys, tells, rs + more, after)
  }

  lemma OnwardStarts<V(!new)>(ops: seq<Op<V>>, keys: seq<seq<V>>, tells: bool)
    ensures Onward(ops, keys, tells, 0, [], keys)
  {
    assert ops[0..] == ops;
    forall more: seq<Reply<V>> ensures [] + more == more {}
  }

  lemma OnwardNext<V(!new)>(ops: seq<Op<V>>, keys: seq<seq<V>>, tells: bool, i: nat, rs: seq<Reply<V>>,
                            now: seq<seq<V>>, r: Reply<V>, mid: seq<seq<V>>)
    requires i < |ops| && Onward(ops, keys, tells, i, rs, now) && Does(ops[i], now, tells, r, mid)
    ensures r.Panics? ==> RunsAs(ops, keys, tells, rs + [r], mid)
    ensures !r.Panics? ==> Onward(ops, keys, tells, i + 1, rs + [r], mid)
  {
    assert ops[i..][0] == ops[i] && ops[i..][1..] == ops[i + 1..];
    hide Does;
    if r.Panics? {
      assert [r][1..] == [] && Does(ops[i..][0], now, tells, [r][0], mid);
      assert RunsAs(ops[i..], now, tells, [r], mid);
    } else {
      forall more, after | RunsAs(ops[i + 1..], mid, tells, more, after)
        ensures RunsAs(ops, keys, tells, rs + [r] + more, after)
      {
        assert ([r] + more)[1..] == more && rs + [r] + more == rs + ([r] + more);
        assert RunsAs(ops[i..], now, tells, [r] + more, after);
      }
    }
  }

  lemma OnwardEnds<V(!new)>(ops: seq<Op<V>>, keys: seq<seq<V>>, tells: bool, rs: seq<Reply<V>>, now: seq<seq<V>>)
    requires Onward(ops, keys, tells, |ops|, rs, now)
    ensures RunsAs(ops, keys, tells, rs, now)
  {
    assert RunsAs(ops[|ops|..], now, tells, [], now);
    assert rs + [] == rs;
  }

  lemma SomeDrop<V>(keys: seq<seq<V>>, key: seq<V>) returns (left: seq<seq<V>>)
    requires key in keys
    ensures Removed(keys, key, left)
  {
    var p :| 0 <= p < |keys| && keys[p] == key;
    left := keys[..p] + keys[p + 1..];
  }

  lemma Dropped<V>(items: seq<Item<V>>, left: seq<Item<V>>, key: seq<V>) returns (after: seq<seq<V>>)
    requires WithoutKey(items, KeysOf(items), key, left)
    ensures after == KeysOf(left) && Removed(KeysOf(items), key, after)
  {
    hide KeysOf;
    var keys := KeysOf(items);
    var p :| 0 <= p < |items| && keys[p] == key && left == items[..p] + items[p + 1..];
    KeysWithout(items, p, 0);
    after := KeysOf(left);
  }

  // ---------- distinct keys ----------

  datatype Applied<V> = Applied(keys: seq<seq<V>>, reply: Reply<V>)

  datatype Ran<V> = Ran(keys: seq<seq<V>>, replies: seq<Reply<V>>)

  /** One operation on a plain list that is scanned from the front. */
  ghost function Plainly<V>(op: Op<V>, keys: seq<seq<V>>, tells: bool): Applied<V> {
    match op
    case Add(_, key) => Applied(keys + [key], At(|keys|, key))
    case Drop(key) =>
      (match Scan(keys, key, 0)
       case None => Applied(keys, Gone)
       case Some(p) => Applied(if p < |keys| then keys[..p] + keys[p + 1..] else keys, if tells then Gone else Panics))
    case Lookup(key) =>
      (match Scan(keys, key, 0)
       case None => Applied(keys, Gone)
       case Some(p) => Applied(keys, At(p, key)))
    case Read(row) => Applied(keys, if row < |keys| then At(row, keys[row]) else Gone)
  }

  ghost function RunPlainly<V>(ops: seq<Op<V>>, keys: seq<seq<V>>, tells: bool): Ran<V> {
    if ops == [] then Ran(keys, []) else
      var once := Plainly(ops[0], keys, tells);
      if once.reply.Panics? then Ran(once.keys, [Panics])
      else
        var later := RunPlainly(ops[1..], once.keys, tells);
        Ran(later.keys, [once.reply] + later.replies)
  }

  /** No key is added that is there. */
  ghost predicate AddsNew<V>(ops: seq<Op<V>>, keys: seq<seq<V>>, tells: bool) {
    ops == [] || ((ops[0].Add? ==> ops[0].key !in keys) && AddsNew(ops[1..], Plainly(ops[0], keys, tells).keys, tells))
  }

  /** With distinct keys the list is the plain one that is scanned from the front. */
  lemma {:induction false} RunIsPlain<V(!new)>(ops: seq<Op<V>>, keys: seq<seq<V>>, tells: bool, rs: seq<Reply<V>>,
                                               after: seq<seq<V>>)
    requires Distinct(keys) && AddsNew(ops, keys, tells) && RunsAs(ops, keys, tells, rs, after)
    ensures Ran(after, rs) == RunPlainly(ops, keys, tells)
  {
    if ops != [] {
      var mid: seq<seq<V>> :|
        Does(ops[0], keys, tells, rs[0], mid)
        && if rs[0].Panics? then rs[1..] == [] && after == mid else RunsAs(ops[1..], mid, tells, rs[1..], after);
      DoesPlainly(ops[0], keys, tells, rs[0], mid);
      hide Does, Plainly, Distinct;
      assert rs == [rs[0]] + rs[1..];
      if !rs[0].Panics? {
        RunIsPlain(ops[1..], mid, tells, rs[1..], after);
      }
    }
  }

  lemma DoesPlainly<V>(op: Op<V>, keys: seq<seq<V>>, tells: bool, r: Reply<V>, after: seq<seq<V>>)
    requires Distinct(keys) && (op.Add? ==> op.key !in keys) && Does(op, keys, tells, r, after)
    ensures Plainly(op, keys, tells) == Applied(after, r) && Distinct(after)
  {
    if op.Drop? || op.Lookup? {
      ScanIs(keys, op.key, 0);
    }
  }

  /** With distinct keys, removing the item of a key leaves exactly the other keys. */
  lemma DeletedKeys<V>(keys: seq<seq<V>>, p: nat)
    requires p < |keys| && Distinct(keys)
    ensures var left := keys[..p] + keys[p + 1..];
            Distinct(left) && keys[p] !in left && forall k :: k in left <==> k in keys && k != keys[p]
  {
    var left := keys[..p] + keys[p + 1..];
    forall k ensures k in left <==> k in keys && k != keys[p] {
      if k in keys && k != keys[p] {
        var i :| 0 <= i < |keys| && keys[i] == k;
        assert left[if i < p then i else i - 1] == k;
      }
    }
  }
}
