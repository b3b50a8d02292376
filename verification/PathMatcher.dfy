/**
  The compiler and matcher of field selectors (node/path_matcher.go). A path of a selector is a chain of segments
  linked from the last to the first, and paths share the segments of their common beginnings.
*/
module PathMatcher {
  import opened PathSelector

  class Seg {
    var parent: Seg?
    const ident: string

    constructor (ident: string, parent: Seg?)
      ensures this.ident == ident && this.parent == parent
    {
      this.ident, this.parent := ident, parent;
    }
  }

  ghost function Idents(nodes: seq<Seg>): (r: Names)
    ensures |r| == |nodes|
  {
    if nodes == [] then [] else [nodes[0].ident] + Idents(nodes[1..])
  }

  lemma {:induction false} IdentsAppend(a: seq<Seg>, b: seq<Seg>)
    ensures Idents(a + b) == Idents(a) + Idents(b)
  {
    if a == [] {
      assert a + b == b;
    } else {
      assert (a + b)[1..] == a[1..] + b;
      IdentsAppend(a[1..], b);
    }
  }

  lemma {:induction false} IdentsAt(nodes: seq<Seg>, i: nat)
    requires i < |nodes|
    ensures Idents(nodes)[i] == nodes[i].ident
  {
    if i > 0 {
      IdentsAt(nodes[1..], i - 1);
    }
  }

  ghost predicate Chain(nodes: seq<Seg>)
    reads nodes
  {
    && nodes != [] && nodes[0].parent == null
    && forall i :: 0 < i < |nodes| ==> nodes[i].parent == nodes[i - 1]
  }

  class SegSlice {
    var head: Seg
    var tail: Seg
    ghost var nodes: seq<Seg>

    ghost predicate Valid()
      reads this, nodes
    {
      Chain(nodes) && head == nodes[0] && tail == nodes[|nodes| - 1]
    }

    constructor (head: Seg, tail: Seg, ghost nodes: seq<Seg>)
      ensures this.head == head && this.tail == tail && this.nodes == nodes
    {
      this.head, this.tail, this.nodes := head, tail, nodes;
    }

    method Len() returns (n: nat)
      requires Valid()
      ensures n == |nodes|
    {
      HeadIsFirst(this);
      n := 1;
      var s := tail;
      while s != head
        invariant 1 <= n <= |nodes| && s == nodes[|nodes| - n]
        decreases |nodes| - n
      {
        s := s.parent;
        n := n + 1;
      }
    }

    /** A copy that shares no segment. */
    method Copy() returns (copy: SegSlice)
      requires Valid()
      ensures copy.Valid() && fresh(copy) && forall s :: s in copy.nodes ==> fresh(s)
      ensures Idents(copy.nodes) == Idents(nodes)
    {
      HeadIsFirst(this);
      var n := new Seg(tail.ident, null);
      copy := new SegSlice(n, n, [n]);
      var orig := tail.parent;
      ghost var k: nat := |nodes| - 1;
      IdentsFrom(nodes, n, [], k);
      hide Idents;
      while orig != null
        invariant k < |nodes| && orig == nodes[k].parent
        invariant fresh(copy) && copy.Valid() && forall i :: 0 <= i < |copy.nodes| ==> fresh(copy.nodes[i])
        invariant Idents(copy.nodes) == Idents(nodes[k..])
        decreases k
      {
        k := k - 1;
        assert copy.head in copy.nodes;
        CopyNext(copy, orig, nodes, k);
        orig := orig.parent;
      }
      assert nodes[0..] == nodes;
    }
  }

  /** Copies the segment above those that have been copied. */
  method CopyNext(copy: SegSlice, orig: Seg, ghost nodes: seq<Seg>, ghost k: nat)
    requires copy.Valid() && k + 1 < |nodes| && orig == nodes[k] && Idents(copy.nodes) == Idents(nodes[k + 1..])
    modifies copy, copy.head
    ensures copy.Valid() && Idents(copy.nodes) == Idents(nodes[k..])
    ensures |copy.nodes| == |old(copy.nodes)| + 1 && fresh(copy.nodes[0]) && copy.nodes[1..] == old(copy.nodes)
  {
    hide Idents;
    var n := new Seg(orig.ident, null);
    IdentsFrom(nodes, n, copy.nodes, k);
    AttachHead(copy, n);
  }

  lemma IdentsFrom(nodes: seq<Seg>, n: Seg, rest: seq<Seg>, k: nat)
    requires k < |nodes| && n.ident == nodes[k].ident
    ensures Idents(rest) == Idents(nodes[k + 1..]) ==> Idents([n] + rest) == Idents(nodes[k..])
    ensures k == |nodes| - 1 ==> Idents([n]) == Idents(nodes[k..])
  {
    assert nodes[k..][0] == nodes[k] && nodes[k..][1..] == nodes[k + 1..];
    assert ([n] + rest)[1..] == rest;
  }

  /** Puts a new segment before the first one of a chain. */
  method AttachHead(slice: SegSlice, n: Seg)
    requires slice.Valid() && n !in slice.nodes && n.parent == null
    modifies slice, slice.head
    ensures slice.Valid() && slice.nodes == [n] + old(slice.nodes)
  {
    HeadIsFirst(slice);
    slice.head.parent := n;
    slice.head := n;
    slice.nodes := [n] + slice.nodes;
  }

  lemma HeadIsFirst(slice: SegSlice)
    requires slice.Valid()
    ensures forall i :: 0 < i < |slice.nodes| ==>
              slice.nodes[i] != slice.head && slice.nodes[i].parent == slice.nodes[i - 1]
    ensures forall i :: 0 <= i < |slice.nodes| ==> (slice.nodes[i].parent == null <==> i == 0)
  {
    forall i | 0 < i < |slice.nodes|
      ensures slice.nodes[i] != slice.head && slice.nodes[i].parent == slice.nodes[i - 1]
              && slice.nodes[i].parent != null
    {
      assert slice.nodes[i].parent == slice.nodes[i - 1];
    }
  }

  ghost function PathsOf(slices: seq<SegSlice>): (r: seq<Names>)
    reads slices
    ensures |r| == |slices|
    decreases |slices|
  {
    if slices == [] then [] else [Idents(slices[0].nodes)] + PathsOf(slices[1..])
  }

  lemma {:induction false} PathsAppend(a: seq<SegSlice>, b: seq<SegSlice>)
    ensures PathsOf(a + b) == PathsOf(a) + PathsOf(b)
  {
    if a == [] {
      assert a + b == b;
    } else {
      assert (a + b)[1..] == a[1..] + b;
      PathsAppend(a[1..], b);
    }
  }

  lemma {:induction false} PathsAt(a: seq<SegSlice>, i: nat)
    requires i < |a|
    ensures PathsOf(a)[i] == Idents(a[i].nodes)
  {
    if i > 0 {
      PathsAt(a[1..], i - 1);
    }
  }

  lemma AllValidAppend(a: seq<SegSlice>, b: seq<SegSlice>)
    requires AllValid(a) && AllValid(b) && forall s :: s in a ==> s !in b
    ensures AllValid(a + b)
  {
    forall i, j | 0 <= i < j < |a + b| ensures (a + b)[i] != (a + b)[j] {
      if i < |a| <= j {
        assert a[i] in a && b[j - |a|] in b;
      }
    }
  }

  twostate lemma PathsKept(slices: seq<SegSlice>)
    requires forall i :: 0 <= i < |slices| ==> slices[i].nodes == old(slices[i].nodes)
    ensures PathsOf(slices) == old(PathsOf(slices))
    decreases |slices|
  {
    if slices != [] {
      PathsKept(slices[1..]);
    }
  }

  ghost predicate AllValid(slices: seq<SegSlice>)
    reads slices, set i, j | 0 <= i < |slices| && 0 <= j < |slices[i].nodes| :: slices[i].nodes[j]
  {
    && (forall i :: 0 <= i < |slices| ==> slices[i].Valid())
    && (forall i, j :: 0 <= i < j < |slices| ==> slices[i] != slices[j])
  }

  // ---------- tokens ----------

  class Lexer {
    const selector: string
    var pos: nat

    constructor (selector: string)
      ensures this.selector == selector && pos == 0
    {
      this.selector, pos := selector, 0;
    }

    ghost predicate Valid()
      reads this
    {
      pos <= |selector|
    }

    ghost function Unread(): seq<string>
      requires Valid()
      reads this
    {
      Tokens(selector[pos..])
    }

    method Next() returns (tok: string)
      requires Valid() && pos < |selector|
      modifies this
      ensures Valid() && old(pos) < pos && old(Unread()) == [tok] + Unread()
    {
      ghost var s := selector[pos..];
      var n := NameLength(selector[pos..]);
      var start := pos;
      if n == 0 {
        pos := pos + 1;
      } else {
        pos := pos + n;
      }
      tok := selector[start..pos];
      assert s[..pos - start] == tok && s[pos - start..] == selector[pos..];
    }
  }

  // ---------- the compiler ----------

  class PathMatchExpression {
    var slices: seq<SegSlice>

    constructor ()
      ensures slices == []
    {
      slices := [];
    }

    ghost predicate Valid()
      reads this, slices, set i, j | 0 <= i < |slices| && 0 <= j < |slices[i].nodes| :: slices[i].nodes[j]
    {
      AllValid(slices)
    }

    ghost function Paths(): seq<Names>
      reads this, slices
    {
      PathsOf(slices)
    }

    method AddSegment(ident: string)
      requires Valid()
      modifies this, set x | x in slices :: x
      ensures Valid() && Paths() == AddName(old(Paths()), ident)
      ensures if old(slices) == [] then forall s :: s in slices ==> fresh(s) else slices == old(slices)
    {
      if slices == [] {
        var seg := new Seg(ident, null);
        var slice := new SegSlice(seg, seg, [seg]);
        slices := [slice];
        OneSeg(slice, seg);
      } else {
        ExtendAll(slices, ident);
      }
    }

    method AddNextExpression(next: PathMatchExpression)
      requires Valid() && next.Valid() && next != this && forall s :: s in slices ==> s !in next.slices
      modifies this
      ensures Valid() && Paths() == old(Paths()) + old(next.Paths()) && slices == old(slices) + next.slices
    {
      PathsAppend(slices, next.slices);
      AllValidAppend(slices, next.slices);
      slices := slices + next.slices;
    }

    /** Every path of this expression with a copy of every path of the nested one attached to it. */
    method AddSubExpression(sub: PathMatchExpression)
      requires Valid() && sub.Valid() && sub != this
      modifies this
      ensures Valid() && Paths() == Cross(old(Paths()), old(sub.Paths())) && forall s :: s in slices ==> fresh(s)
    {
      slices := CrossSlices(slices, sub.slices);
    }

    /**
      What the tokens read so far and the ones to come amount to: `s` holds the current alternative, and unless
      that is the first one this expression holds the earlier ones.
    */
    ghost predicate Reads(s: PathMatchExpression, toks: seq<string>, total: Parsed)
      reads this, slices, set i, j | 0 <= i < |slices| && 0 <= j < |slices[i].nodes| :: slices[i].nodes[j]
      reads s, s.slices, set i, j | 0 <= i < |s.slices| && 0 <= j < |s.slices[i].nodes| :: s.slices[i].nodes[j]
    {
      && Valid() && s.Valid()
      && (s != this ==> forall x :: x in slices ==> x !in s.slices)
      && Parse(toks, if s == this then [] else Paths(), s.Paths()) == total
    }

    method TakeName(s: PathMatchExpression, name: string, ghost rest: seq<string>, ghost total: Parsed)
      requires Reads(s, [name] + rest, total) && name !in {"(", ";", ")", "/"}
      modifies s, set x | x in s.slices :: x
      ensures Reads(s, rest, total) && (s != this ==> slices == old(slices))
      ensures if old(s.slices) == [] then forall x :: x in s.slices ==> fresh(x) else s.slices == old(s.slices)
    {
      ParseName(name, rest, if s == this then [] else Paths(), s.Paths());
      hide Parse, AddName;
      s.AddSegment(name);
      if s != this {
        forall i | 0 <= i < |slices| ensures slices[i].nodes == old(slices[i].nodes) {
          assert slices[i] in old(slices) && slices[i] !in old(s.slices);
        }
        PathsKept(slices);
      }
    }

    method TakeGroup(s: PathMatchExpression, nested: PathMatchExpression, ghost toks: seq<string>,
                     ghost rest: seq<string>, ghost total: Parsed)
      requires Reads(s, ["("] + toks, total) && nested.Valid() && nested != s && nested != this
      requires Parsed(nested.Paths(), rest) == Parse(toks, [], [])
      modifies s
      ensures Reads(s, rest, total) && (s != this ==> slices == old(slices)) && forall x :: x in s.slices ==> fresh(x)
    {
      ParseGroup(toks, if s == this then [] else Paths(), s.Paths());
      hide Parse, Cross;
      s.AddSubExpression(nested);
      if s != this {
        PathsKept(slices);
      }
    }

    /** Ends the current alternative. */
    method TakeUp(s: PathMatchExpression, ghost toks: seq<string>, ghost total: Parsed)
      requires Reads(s, toks, total)
      modifies this
      ensures Valid() && slices == if s == this then old(slices) else old(slices) + s.slices
      ensures (toks == [] || toks[0] == ")") ==> total == Parsed(Paths(), if toks == [] then [] else toks[1..])
      ensures toks != [] && toks[0] == ";" ==> Parse(toks[1..], Paths(), []) == total
    {
      ParseEnds(toks, if s == this then [] else Paths(), s.Paths());
      hide Parse, PathsOf;
      if s != this {
        AddNextExpression(s);
      }
    }

    method Parsex(l: Lexer)
      requires slices == [] && l.Valid()
      modifies this, l
      ensures Valid() && (forall x :: x in slices ==> fresh(x)) && l.Valid() && old(l.pos) <= l.pos
      ensures Parsed(Paths(), l.Unread()) == Parse(old(l.Unread()), [], [])
      decreases |l.selector| - l.pos, 1
    {
      var s := this;
      ghost var total := Parse(l.Unread(), [], []);
      EmptyReads(this);
      assert Reads(s, l.Unread(), total);
      hide *;
      var end := false;
      while l.pos < |l.selector|
        invariant s == this || fresh(s)
        invariant l.Valid() && Reads(s, l.Unread(), total) && old(l.pos) <= l.pos <= |l.selector|
        invariant (forall x :: x in slices ==> fresh(x)) && (forall x :: x in s.slices ==> fresh(x))
        decreases |l.selector| - l.pos
      {
        s, end := TakeToken(s, l, total);
        if end {
          return;
        }
      }
      NoTokens(l);
      TakeUp(s, l.Unread(), total);
    }

    /** One turn of the loop of Parsex; `end` says that it met a closing bracket. */
    method TakeToken(s: PathMatchExpression, l: Lexer, ghost total: Parsed)
      returns (next: PathMatchExpression, end: bool)
      requires l.Valid() && l.pos < |l.selector| && Reads(s, l.Unread(), total)
      modifies this, s, l, set x | x in s.slices :: x
      ensures l.Valid() && old(l.pos) < l.pos <= |l.selector|
      ensures if end then Valid() && total == Parsed(Paths(), l.Unread()) else Reads(next, l.Unread(), total)
      ensures next == s || fresh(next)
      ensures forall x :: x in slices ==> x in old(slices) || x in old(s.slices) || fresh(x)
      ensures forall x :: x in next.slices ==> x in old(s.slices) || fresh(x)
      decreases |l.selector| - l.pos, 0
    {
      next, end := s, false;
      hide Parse, PathsOf, AllValid, Tokens;
      var t := l.Next();
      ghost var rest := l.Unread();
      assert ([t] + rest)[1..] == rest;
      match t
      case "(" =>
        var nested := new PathMatchExpression();
        nested.Parsex(l);
        TakeGroup(s, nested, rest, l.Unread(), total);
      case ";" =>
        TakeUp(s, [t] + rest, total);
        next := new PathMatchExpression();
        EmptyReads(next);
      case ")" =>
        TakeUp(s, [t] + rest, total);
        end := true;
      case "/" =>
        ParseSlash(rest, if s == this then [] else Paths(), s.Paths());
      case _ =>
        TakeName(s, t, rest, total);
    }
  }

  method ParsePathExpression(selector: string) returns (e: PathMatchExpression)
    ensures fresh(e) && e.Valid() && e.Paths() == Parse(Tokens(selector), [], []).paths
  {
    e := new PathMatchExpression();
    var l := new Lexer(selector);
    assert selector[0..] == selector;
    e.Parsex(l);
  }

  lemma EmptyReads(e: PathMatchExpression)
    requires e.slices == []
    ensures e.Valid() && e.Paths() == []
  {
  }

  lemma NoTokens(l: Lexer)
    requires l.Valid() && l.pos == |l.selector|
    ensures l.Unread() == []
  {
  }

  lemma ParseName(name: string, rest: seq<string>, done: seq<Names>, now: seq<Names>)
    requires name !in {"(", ";", ")", "/"}
    ensures Parse([name] + rest, done, now) == Parse(rest, done, AddName(now, name))
  {
    assert ([name] + rest)[1..] == rest;
  }

  lemma ParseGroup(toks: seq<string>, done: seq<Names>, now: seq<Names>)
    ensures Parse(["("] + toks, done, now)
         == Parse(Parse(toks, [], []).left, done, Cross(now, Parse(toks, [], []).paths))
  {
    assert (["("] + toks)[1..] == toks;
  }

  lemma ParseSlash(rest: seq<string>, done: seq<Names>, now: seq<Names>)
    ensures Parse(["/"] + rest, done, now) == Parse(rest, done, now)
  {
    assert (["/"] + rest)[1..] == rest;
  }

  lemma ParseEnds(toks: seq<string>, done: seq<Names>, now: seq<Names>)
    ensures (toks == [] || toks[0] == ")") ==>
              Parse(toks, done, now) == Parsed(done + now, if toks == [] then [] else toks[1..])
    ensures toks != [] && toks[0] == ";" ==> Parse(toks, done, now) == Parse(toks[1..], done + now, [])
    ensures [] + now == now
  {
  }

  lemma OneSeg(slice: SegSlice, seg: Seg)
    requires slice.nodes == [seg]
    ensures PathsOf([slice]) == [[seg.ident]]
  {
    assert Idents([seg]) == [seg.ident];
    assert [slice][1..] == [];
  }

  /** Attaches one more segment to every path. */
  method ExtendAll(slices: seq<SegSlice>, ident: string)
    requires AllValid(slices)
    modifies set x | x in slices :: x
    ensures AllValid(slices) && PathsOf(slices) == Extended(old(PathsOf(slices)), ident)
  {
    ghost var before := PathsOf(slices);
    hide PathsOf, Idents, SegSlice.Valid;
    AllAt(slices);
    var i := 0;
    while i < |slices|
      invariant i <= |slices| && (forall j :: 0 <= j < |slices| ==> slices[j].Valid())
      invariant forall j :: 0 <= j < i ==> Idents(slices[j].nodes) == before[j] + [ident]
      invariant forall j :: i <= j < |slices| ==> Idents(slices[j].nodes) == before[j]
    {
      assert slices[i] in slices;
      ExtendOne(slices[i], ident);
      i := i + 1;
    }
    ExtendedAll(before, ident);
    AllAt(slices);
  }

  /** What is known of the paths, one by one. */
  lemma AllAt(slices: seq<SegSlice>)
    requires forall i, j :: 0 <= i < j < |slices| ==> slices[i] != slices[j]
    requires forall j :: 0 <= j < |slices| ==> slices[j].Valid()
    ensures AllValid(slices) && |PathsOf(slices)| == |slices|
    ensures forall j :: 0 <= j < |slices| ==> PathsOf(slices)[j] == Idents(slices[j].nodes)
  {
    forall j | 0 <= j < |slices| ensures PathsOf(slices)[j] == Idents(slices[j].nodes) {
      PathsAt(slices, j);
    }
  }

  method ExtendOne(slice: SegSlice, ident: string)
    requires slice.Valid()
    modifies slice
    ensures slice.Valid() && Idents(slice.nodes) == Idents(old(slice.nodes)) + [ident]
    ensures exists seg :: fresh(seg) && slice.nodes == old(slice.nodes) + [seg]
  {
    var seg := new Seg(ident, slice.tail);
    IdentsAppend(slice.nodes, [seg]);
    slice.tail := seg;
    slice.nodes := slice.nodes + [seg];
  }

  /** The first `i` paths have been dealt with. */
  ghost predicate CrossDone(done: seq<Names>, ps: seq<Names>, qs: seq<Names>, i: nat) {
    i <= |ps| && done + Cross(ps[i..], qs) == Cross(ps, qs)
  }

  lemma CrossDoneIs(done: seq<Names>, ps: seq<Names>, qs: seq<Names>, i: nat)
    ensures CrossDone([], ps, qs, 0)
    ensures CrossDone(done, ps, qs, i) && i < |ps| ==> CrossDone(done + Prefixed(ps[i], qs), ps, qs, i + 1)
    ensures CrossDone(done, ps, qs, |ps|) ==> done == Cross(ps, qs)
  {
    assert ps[0..] == ps;
    if CrossDone(done, ps, qs, i) && i < |ps| {
      assert ps[i..][0] == ps[i] && ps[i..][1..] == ps[i + 1..];
      assert done + (Prefixed(ps[i], qs) + Cross(ps[i + 1..], qs))
             == done + Prefixed(ps[i], qs) + Cross(ps[i + 1..], qs);
    }
  }

  ghost predicate PrefixedDone(done: seq<Names>, p: Names, qs: seq<Names>, j: nat) {
    j <= |qs| && done + Prefixed(p, qs[j..]) == Prefixed(p, qs)
  }

  lemma PrefixedDoneIs(done: seq<Names>, p: Names, qs: seq<Names>, j: nat)
    ensures PrefixedDone([], p, qs, 0)
    ensures PrefixedDone(done, p, qs, j) && j < |qs| ==> PrefixedDone(done + [p + qs[j]], p, qs, j + 1)
    ensures PrefixedDone(done, p, qs, |qs|) ==> done == Prefixed(p, qs)
  {
    assert qs[0..] == qs;
    if PrefixedDone(done, p, qs, j) && j < |qs| {
      assert qs[j..][0] == qs[j] && qs[j..][1..] == qs[j + 1..];
    }
  }

  method CrossSlices(mine: seq<SegSlice>, theirs: seq<SegSlice>) returns (expanded: seq<SegSlice>)
    requires AllValid(mine) && AllValid(theirs)
    ensures AllValid(expanded) && PathsOf(expanded) == Cross(PathsOf(mine), PathsOf(theirs))
    ensures forall s :: s in expanded ==> fresh(s)
  {
    expanded := [];
    ghost var ps, qs := PathsOf(mine), PathsOf(theirs);
    AllValidNone();
    hide Cross, Prefixed, CrossDone, Idents, AllValid;
    CrossDoneIs([], ps, qs, 0);
    var i := 0;
    while i < |mine|
      invariant i <= |mine| && AllValid(expanded) && (forall s :: s in expanded ==> fresh(s))
      invariant CrossDone(PathsOf(expanded), ps, qs, i)
    {
      PathsAt(mine, i);
      AllValidAt(mine, i);
      expanded := CrossRow(expanded, mine[i], theirs, ps, qs, i);
      i := i + 1;
    }
    CrossDoneIs(PathsOf(expanded), ps, qs, i);
  }

  method CrossRow(expanded: seq<SegSlice>, slice: SegSlice, theirs: seq<SegSlice>, ghost ps: seq<Names>,
                  ghost qs: seq<Names>, ghost i: nat)
    returns (r: seq<SegSlice>)
    requires AllValid(expanded) && slice.Valid() && AllValid(theirs) && CrossDone(PathsOf(expanded), ps, qs, i)
    requires i < |ps| && ps[i] == Idents(slice.nodes) && qs == PathsOf(theirs)
    ensures AllValid(r) && CrossDone(PathsOf(r), ps, qs, i + 1) && forall s :: s in r ==> s in expanded || fresh(s)
  {
    CrossDoneIs(PathsOf(expanded), ps, qs, i);
    hide Cross, Prefixed, CrossDone, Idents, AllValid, PathsOf;
    var row := CrossOne(slice, theirs);
    r := Together(expanded, row);
  }

  method CrossOne(slice: SegSlice, theirs: seq<SegSlice>) returns (row: seq<SegSlice>)
    requires slice.Valid() && AllValid(theirs)
    ensures AllValid(row) && PathsOf(row) == Prefixed(Idents(slice.nodes), PathsOf(theirs))
    ensures forall s :: s in row ==> fresh(s)
  {
    row := [];
    ghost var p, qs := Idents(slice.nodes), PathsOf(theirs);
    PrefixedDoneIs([], p, qs, 0);
    AllValidNone();
    hide Prefixed, PrefixedDone, Idents, AllValid;
    var j := 0;
    while j < |theirs|
      invariant j <= |theirs| && AllValid(row) && (forall s :: s in row ==> fresh(s))
      invariant PrefixedDone(PathsOf(row), p, qs, j)
    {
      AllValidAt(theirs, j);
      PathsAt(theirs, j);
      row := CrossNext(row, slice, theirs[j], p, qs, j);
      j := j + 1;
    }
    PrefixedDoneIs(PathsOf(row), p, qs, j);
  }

  method CrossNext(row: seq<SegSlice>, slice: SegSlice, sub: SegSlice, ghost p: Names, ghost qs: seq<Names>,
                   ghost j: nat)
    returns (r: seq<SegSlice>)
    requires AllValid(row) && slice.Valid() && sub.Valid() && PrefixedDone(PathsOf(row), p, qs, j)
    requires j < |qs| && p == Idents(slice.nodes) && qs[j] == Idents(sub.nodes)
    ensures AllValid(r) && PrefixedDone(PathsOf(r), p, qs, j + 1) && forall s :: s in r ==> s in row || fresh(s)
  {
    PrefixedDoneIs(PathsOf(row), p, qs, j);
    hide Prefixed, PrefixedDone, Idents, AllValid, PathsOf;
    var n := Attached(slice, sub);
    OnePath(n);
    r := Together(row, [n]);
  }

  /** Two lists of paths that have none in common. */
  method Together(a: seq<SegSlice>, b: seq<SegSlice>) returns (r: seq<SegSlice>)
    requires AllValid(a) && AllValid(b) && forall s :: s in a ==> s !in b
    ensures AllValid(r) && PathsOf(r) == PathsOf(a) + PathsOf(b)
    ensures forall s :: s in r ==> s in a || s in b
  {
    PathsAppend(a, b);
    AllValidAppend(a, b);
    r := a + b;
  }

  lemma AllValidNone()
    ensures AllValid([])
  {
  }

  lemma AllValidAt(slices: seq<SegSlice>, i: nat)
    requires AllValid(slices) && i < |slices|
    ensures slices[i].Valid()
  {
  }

  lemma OnePath(n: SegSlice)
    ensures PathsOf([n]) == [Idents(n.nodes)] && (n.Valid() ==> AllValid([n]))
  {
    assert [n][1..] == [];
  }

  lemma {:induction false} ExtendedAll(ps: seq<Names>, n: string)
    ensures |Extended(ps, n)| == |ps| && forall i :: 0 <= i < |ps| ==> Extended(ps, n)[i] == ps[i] + [n]
  {
    if ps != [] {
      ExtendedAll(ps[1..], n);
    }
  }

  /** A new path: `slice`, whose segments it shares, and then a copy of `sub`. */
  method Attached(slice: SegSlice, sub: SegSlice) returns (n: SegSlice)
    requires slice.Valid() && sub.Valid()
    ensures fresh(n) && n.Valid() && Idents(n.nodes) == Idents(slice.nodes) + Idents(sub.nodes)
  {
    var copy := sub.Copy();
    HeadIsFirst(copy);
    assert copy.head in copy.nodes;
    n := new SegSlice(slice.head, copy.tail, slice.nodes + copy.nodes);
    copy.head.parent := slice.tail;
    IdentsAppend(slice.nodes, copy.nodes);
  }

  // ---------- matching ----------

  /** A path of definitions; `base` and `candidate` are linked from the last segment to the first. */
  datatype Path = Nil | At(parent: Path, ident: string)

  function Len(p: Path): nat {
    if p.Nil? then 0 else 1 + Len(p.parent)
  }

  function PathNames(p: Path): (r: Names)
    ensures |r| == Len(p)
  {
    if p.Nil? then [] else PathNames(p.parent) + [p.ident]
  }

  /** A match, or the crash that follows when the walk up the candidate runs out of it. */
  datatype Outcome = Matched(holds: bool) | Crashed

  /** What one path of a selector says of a candidate whose names are `names`, of which the base has `base`. */
  ghost function MatchesOne(p: Names, names: Names, base: nat): Outcome {
    if |names| - base < |p| then Crashed else Matched(p == names[base..base + |p|])
  }

  /** The paths are tried in order. */
  ghost function MatchesFrom(ps: seq<Names>, names: Names, base: nat): Outcome {
    if ps == [] then Matched(false) else
      var first := MatchesOne(ps[0], names, base);
      if first == Matched(false) then MatchesFrom(ps[1..], names, base) else first
  }

  /**
    The last `|want| - filter` names of `want` have been compared, and agree; `len` is how long the rest of the
    candidate is.
  */
  ghost predicate Compared(want: Names, names: Names, base: nat, filter: nat, len: nat) {
    && len <= |names| && filter <= |want|
    && (|names| - base < |want| ==> filter == |want|)
    && (filter < |want| ==> len - base == filter)
    && (|names| - base >= |want| ==>
          filter <= len - base && forall k :: filter <= k < |want| ==> want[k] == names[base + k])
  }

  lemma ComparedNext(want: Names, names: Names, base: nat, filter: nat, len: nat)
    requires Compared(want, names, base, filter, len) && 0 < filter && 0 < len
    ensures len - base != filter ==> Compared(want, names, base, filter, len - 1)
    ensures len - base == filter && names[len - 1] == want[filter - 1] ==>
              Compared(want, names, base, filter - 1, len - 1)
    ensures len - base == filter && names[len - 1] != want[filter - 1] ==>
              MatchesOne(want, names, base) == Matched(false)
  {
    if len - base == filter && names[len - 1] != want[filter - 1] {
      assert names[base..base + |want|][filter - 1] == names[len - 1];
    }
  }

  lemma ComparedEnd(want: Names, names: Names, base: nat, filter: nat, len: nat)
    requires Compared(want, names, base, filter, len) && want != []
    ensures filter == 0 ==> len == base && MatchesOne(want, names, base) == Matched(true)
    ensures len == 0 && filter > 0 ==> MatchesOne(want, names, base) == Crashed
  {
    if filter == 0 {
      assert names[base..base + |want|] == want;
    }
  }

  /** `p` is an ancestor of the path with the given names, or that path itself. */
  ghost predicate Above(p: Path, names: Names) {
    Len(p) <= |names| && PathNames(p) == names[..Len(p)]
  }

  lemma AboveNext(p: Path, names: Names)
    requires Above(p, names)
    ensures Len(p) <= |names| && (Len(p) == 0 <==> p.Nil?)
    ensures !p.Nil? ==> Len(p.parent) == Len(p) - 1 && p.ident == names[Len(p) - 1] && Above(p.parent, names)
  {
    if !p.Nil? {
      assert names[..Len(p)][..Len(p) - 1] == names[..Len(p) - 1];
      assert PathNames(p)[..Len(p) - 1] == PathNames(p.parent);
      assert PathNames(p)[Len(p) - 1] == p.ident;
    }
  }

  lemma AboveStart(p: Path)
    ensures Above(p, PathNames(p))
  {
  }

  method SliceMatches(slice: SegSlice, base: Path, candidate: Path) returns (r: Outcome)
    requires slice.Valid()
    ensures r == MatchesOne(Idents(slice.nodes), PathNames(candidate), Len(base))
  {
    hide PathNames, Idents, Compared, MatchesOne, Above, Tokens;
    var s: Seg? := slice.tail;
    var p := candidate;
    var sub := Len(candidate) - Len(base);
    var filter: nat := slice.Len();
    ghost var names, want, len := PathNames(candidate), Idents(slice.nodes), Len(base);
    HeadIsFirst(slice);
    AboveStart(candidate);
    StartCompare(want, names, len);
    while true
      invariant Above(p, names) && sub == Len(p) - len
      invariant filter <= |slice.nodes| && (filter > 0 ==> s == slice.nodes[filter - 1])
      invariant Compared(want, names, len, filter, Len(p))
      decreases Len(p)
    {
      AboveNext(p, names);
      ComparedEnd(want, names, len, filter, Len(p));
      if filter == 0 {
        // both paths have their definitions, so that comparing them compares their lengths
        if Len(p) == Len(base) {
          return Matched(true);
        }
      }
      if p.Nil? {
        return Crashed;
      }
      ComparedNext(want, names, len, filter, Len(p));
      if sub == filter {
        IdentsAt(slice.nodes, filter - 1);
        if p.ident != s.ident {
          return Matched(false);
        }
        s := s.parent;
        filter := filter - 1;
      }
      p := p.parent;
      sub := sub - 1;
    }
  }

  lemma StartCompare(want: Names, names: Names, base: nat)
    ensures Compared(want, names, base, |want|, |names|)
  {
  }

  method PathMatches(e: PathMatchExpression, base: Path, candidate: Path) returns (r: Outcome)
    requires e.Valid()
    ensures r == if e.slices == [] then Matched(true) else MatchesFrom(e.Paths(), PathNames(candidate), Len(base))
  {
    if e.slices == [] {
      return Matched(true);
    }
    ghost var ps, names := e.Paths(), PathNames(candidate);
    assert ps[0..] == ps;
    var i := 0;
    while i < |e.slices|
      invariant i <= |e.slices| && MatchesFrom(ps[i..], names, Len(base)) == MatchesFrom(ps, names, Len(base))
    {
      PathsAt(e.slices, i);
      assert ps[i..][0] == ps[i] && ps[i..][1..] == ps[i + 1..];
      var first := SliceMatches(e.slices[i], base, candidate);
      if first != Matched(false) {
        return first;
      }
      i := i + 1;
    }
    return Matched(false);
  }

  // ---------- a compiled selector matches as the selector does ----------

  /** The candidate is at least as deep below its base as every path of the selector. */
  ghost predicate DeepEnough(ps: seq<Names>, names: Names, base: nat) {
    forall i :: 0 <= i < |ps| ==> |ps[i]| <= |names| - base
  }

  lemma {:induction false} MatchesIsSpan(ps: seq<Names>, names: Names, base: nat)
    requires base <= |names| && DeepEnough(ps, names, base)
    ensures MatchesFrom(ps, names, base) == Matched(exists end :: SpansSome(names, base, ps, end))
  {
    if ps != [] {
      var p := ps[0];
      assert DeepEnough(ps[1..], names, base) by {
        assert forall i :: 0 <= i < |ps[1..]| ==> ps[1..][i] == ps[i + 1];
      }
      MatchesIsSpan(ps[1..], names, base);
      assert ps == [p] + ps[1..];
      forall end: nat
        ensures SpansSome(names, base, ps, end) <==> Spans(names, base, p, end) || SpansSome(names, base, ps[1..], end)
      {
        SpansAppend(names, base, [p], ps[1..], end);
        assert SpansSome(names, base, [p], end) <==> Spans(names, base, p, end) by {
          assert [p][0] == p;
        }
      }
      if p == names[base..base + |p|] {
        assert Spans(names, base, p, base + |p|);
        assert SpansSome(names, base, ps, base + |p|);
      }
      if end :| SpansSome(names, base, ps[1..], end) {
        assert SpansSome(names, base, ps, end);
      }
    }
  }

  /** Without a crash, and with a match exactly when the selector itself matches the candidate from the base on. */
  lemma CompiledMatches(a: Alts, s: string, names: Names, base: nat)
    requires AltsNamed(a) && NoSlashes(Tokens(s)) == AltsTokens(a) && GroupsFollow(a)
    requires base <= |names| && DeepEnough(Expand(a), names, base)
    ensures MatchesFrom(Parse(Tokens(s), [], []).paths, names, base) == Matched(AltsEnds(a, names, base) != {})
    ensures Parse(Tokens(s), [], []).paths != []
  {
    CompilesRight(a, s);
    ExpandSome(a);
    MatchesIsSpan(Expand(a), names, base);
    forall end: nat ensures end in AltsEnds(a, names, base) <==> SpansSome(names, base, Expand(a), end) {
      AltsEndsAre(a, names, base, end);
    }
  }
}
