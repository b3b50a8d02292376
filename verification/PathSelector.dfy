/**
  The language of field selectors (node/path_matcher.go), such as `a/(b;c)d`: what a selector stands for, and when
  the compiler of selectors gets it right.
*/
module PathSelector {

  type Names = seq<string>

  // ---------- selectors and the paths they stand for ----------

  /** Alternatives, of which there is at least one; each has at least one step. */
  datatype Alts = Last(steps: Steps) | Either(steps: Steps, more: Alts)
  datatype Steps = Only(item: Item) | Then(item: Item, more: Steps)
  datatype Item = Name(ident: string) | Group(alts: Alts)

  function Prefixed(p: Names, qs: seq<Names>): seq<Names> {
    if qs == [] then [] else [p + qs[0]] + Prefixed(p, qs[1..])
  }

  /** Every path of `ps` followed by every path of `qs`. */
  function Cross(ps: seq<Names>, qs: seq<Names>): seq<Names> {
    if ps == [] then [] else Prefixed(ps[0], qs) + Cross(ps[1..], qs)
  }

  function Expand(a: Alts): seq<Names> {
    match a
    case Last(s) => ExpandSteps(s)
    case Either(s, more) => ExpandSteps(s) + Expand(more)
  }

  function ExpandSteps(s: Steps): seq<Names> {
    match s
    case Only(i) => ExpandItem(i)
    case Then(i, more) => Cross(ExpandItem(i), ExpandSteps(more))
  }

  function ExpandItem(i: Item): seq<Names> {
    match i
    case Name(n) => [[n]]
    case Group(a) => Expand(a)
  }

  // ---------- what the compiler computes ----------

  function AddName(ps: seq<Names>, n: string): seq<Names> {
    if ps == [] then [[n]] else Extended(ps, n)
  }

  function Extended(ps: seq<Names>, n: string): seq<Names> {
    if ps == [] then [] else [ps[0] + [n]] + Extended(ps[1..], n)
  }

  datatype Parsed = Parsed(paths: seq<Names>, left: seq<string>)

  /** `parsex`, which has `done` with earlier alternatives and `now` in the current one. */
  function Parse(toks: seq<string>, done: seq<Names>, now: seq<Names>): (r: Parsed)
    ensures |r.left| <= |toks|
    decreases |toks|
  {
    if toks == [] then Parsed(done + now, [])
    else
      match toks[0]
      case "(" =>
        var nested := Parse(toks[1..], [], []);
        Parse(nested.left, done, Cross(now, nested.paths))
      case ";" => Parse(toks[1..], done + now, [])
      case ")" => Parsed(done + now, toks[1..])
      case "/" => Parse(toks[1..], done, now)
      case n => Parse(toks[1..], done, AddName(now, n))
  }

  // ---------- texts ----------

  predicate Delimiter(c: char) {
    c in "(;)/"
  }

  function NameLength(s: string): (n: nat)
    ensures n <= |s|
    ensures n < |s| ==> Delimiter(s[n])
    ensures forall i :: 0 <= i < n ==> !Delimiter(s[i])
  {
    if s == "" || Delimiter(s[0]) then 0 else 1 + NameLength(s[1..])
  }

  function TokenLength(s: string): (n: nat)
    requires s != ""
    ensures 0 < n <= |s|
  {
    if Delimiter(s[0]) then 1 else NameLength(s)
  }

  function Tokens(s: string): seq<string>
    decreases |s|
  {
    if s == "" then [] else [s[..TokenLength(s)]] + Tokens(s[TokenLength(s)..])
  }

  /** Without the slashes, which only separate names. */
  function NoSlashes(toks: seq<string>): seq<string> {
    if toks == [] then [] else (if toks[0] == "/" then [] else [toks[0]]) + NoSlashes(toks[1..])
  }

  function AltsTokens(a: Alts): seq<string> {
    match a
    case Last(s) => StepsTokens(s)
    case Either(s, more) => StepsTokens(s) + ([";"] + AltsTokens(more))
  }

  function StepsTokens(s: Steps): seq<string> {
    match s
    case Only(i) => ItemTokens(i)
    case Then(i, more) => ItemTokens(i) + StepsTokens(more)
  }

  function ItemTokens(i: Item): seq<string> {
    match i
    case Name(n) => [n]
    case Group(a) => ["("] + (AltsTokens(a) + [")"])
  }

  predicate AltsNamed(a: Alts) {
    match a
    case Last(s) => StepsNamed(s)
    case Either(s, more) => StepsNamed(s) && AltsNamed(more)
  }

  predicate StepsNamed(s: Steps) {
    match s
    case Only(i) => ItemNamed(i)
    case Then(i, more) => ItemNamed(i) && StepsNamed(more)
  }

  predicate ItemNamed(i: Item) {
    match i
    case Name(n) => n != "" && forall k :: 0 <= k < |n| ==> !Delimiter(n[k])
    case Group(a) => AltsNamed(a)
  }

  // ---------- what the compiler makes of a selector ----------

  function CodeAlts(a: Alts): seq<Names>
    decreases a
  {
    match a
    case Last(s) => CodeSteps([], s)
    case Either(s, more) => CodeSteps([], s) + CodeAlts(more)
  }

  function CodeSteps(now: seq<Names>, s: Steps): seq<Names>
    decreases s
  {
    match s
    case Only(i) => CodeItem(now, i)
    case Then(i, more) => CodeSteps(CodeItem(now, i), more)
  }

  function CodeItem(now: seq<Names>, i: Item): seq<Names>
    decreases i
  {
    match i
    case Name(n) => AddName(now, n)
    case Group(a) => Cross(now, CodeAlts(a))
  }

  lemma {:induction false} SlashesIgnored(toks: seq<string>, done: seq<Names>, now: seq<Names>)
    ensures Parse(toks, done, now).paths == Parse(NoSlashes(toks), done, now).paths
    ensures NoSlashes(Parse(toks, done, now).left) == Parse(NoSlashes(toks), done, now).left
    decreases |toks|
  {
    if toks != [] {
      var plain := NoSlashes(toks);
      if toks[0] != "/" {
        assert plain[0] == toks[0] && plain[1..] == NoSlashes(toks[1..]);
      } else {
        assert plain == NoSlashes(toks[1..]);
      }
      match toks[0]
      case "(" =>
        var nested := Parse(toks[1..], [], []);
        SlashesIgnored(toks[1..], [], []);
        SlashesIgnored(nested.left, done, Cross(now, nested.paths));
      case ";" => SlashesIgnored(toks[1..], done + now, []);
      case ")" =>
      case "/" => SlashesIgnored(toks[1..], done, now);
      case n => SlashesIgnored(toks[1..], done, AddName(now, n));
    }
  }

  lemma {:induction false} ParseItem(i: Item, rest: seq<string>, done: seq<Names>, now: seq<Names>)
    requires ItemNamed(i)
    ensures Parse(ItemTokens(i) + rest, done, now) == Parse(rest, done, CodeItem(now, i))
    decreases i
  {
    var toks := ItemTokens(i) + rest;
    match i
    case Name(n) =>
      assert toks[1..] == rest && toks[0] == n;
      assert n[0] !in "(;)/";
    case Group(a) =>
      assert toks[1..] == AltsTokens(a) + ([")"] + rest);
      ParseAlts(a, [")"] + rest, []);
      assert ([")"] + rest)[1..] == rest && [] + CodeAlts(a) == CodeAlts(a);
  }

  lemma {:induction false} ParseSteps(s: Steps, rest: seq<string>, done: seq<Names>, now: seq<Names>)
    requires StepsNamed(s)
    ensures Parse(StepsTokens(s) + rest, done, now) == Parse(rest, done, CodeSteps(now, s))
    decreases s
  {
    match s
    case Only(i) => ParseItem(i, rest, done, now);
    case Then(i, more) =>
      assert StepsTokens(s) + rest == ItemTokens(i) + (StepsTokens(more) + rest);
      ParseItem(i, StepsTokens(more) + rest, done, now);
      ParseSteps(more, rest, done, CodeItem(now, i));
  }

  lemma {:induction false} ParseAlts(a: Alts, rest: seq<string>, done: seq<Names>)
    requires AltsNamed(a) && (rest != [] ==> rest[0] == ")")
    ensures Parse(AltsTokens(a) + rest, done, []) == Parsed(done + CodeAlts(a), if rest == [] then [] else rest[1..])
    decreases a
  {
    match a
    case Last(s) => ParseSteps(s, rest, done, []);
    case Either(s, more) =>
      var others := [";"] + AltsTokens(more) + rest;
      assert AltsTokens(a) + rest == StepsTokens(s) + others;
      ParseSteps(s, others, done, []);
      assert others[1..] == AltsTokens(more) + rest && others[0] == ";";
      hide StepsTokens, AltsTokens, CodeSteps, AltsNamed;
      ParseAlts(more, rest, done + CodeSteps([], s));
      assert done + CodeSteps([], s) + CodeAlts(more) == done + CodeAlts(a);
  }

  // ---------- when that is right ----------

  /** Every group follows a step of its own alternative. */
  predicate GroupsFollow(a: Alts) {
    match a
    case Last(s) => s.item.Name? && StepsFollow(s)
    case Either(s, more) => s.item.Name? && StepsFollow(s) && GroupsFollow(more)
  }

  predicate StepsFollow(s: Steps) {
    match s
    case Only(i) => ItemFollows(i)
    case Then(i, more) => ItemFollows(i) && StepsFollow(more)
  }

  predicate ItemFollows(i: Item) {
    i.Group? ==> GroupsFollow(i.alts)
  }

  lemma {:induction false} PrefixedAll(p: Names, qs: seq<Names>)
    ensures |Prefixed(p, qs)| == |qs| && forall k :: 0 <= k < |qs| ==> Prefixed(p, qs)[k] == p + qs[k]
  {
    if qs != [] {
      PrefixedAll(p, qs[1..]);
    }
  }

  lemma {:induction false} PrefixedAppend(p: Names, qs: seq<Names>, rs: seq<Names>)
    ensures Prefixed(p, qs + rs) == Prefixed(p, qs) + Prefixed(p, rs)
  {
    PrefixedAll(p, qs);
    PrefixedAll(p, rs);
    PrefixedAll(p, qs + rs);
  }

  lemma {:induction false} CrossAppend(ps: seq<Names>, qs: seq<Names>, rs: seq<Names>)
    ensures Cross(ps + qs, rs) == Cross(ps, rs) + Cross(qs, rs)
  {
    if ps == [] {
      assert ps + qs == qs;
    } else {
      assert (ps + qs)[1..] == ps[1..] + qs;
      CrossAppend(ps[1..], qs, rs);
    }
  }

  lemma {:induction false} PrefixedCross(p: Names, qs: seq<Names>, rs: seq<Names>)
    ensures Cross(Prefixed(p, qs), rs) == Prefixed(p, Cross(qs, rs))
  {
    if qs != [] {
      PrefixedCross(p, qs[1..], rs);
      CrossAppend([p + qs[0]], Prefixed(p, qs[1..]), rs);
      PrefixedTwice(p, qs[0], rs);
      PrefixedAppend(p, Prefixed(qs[0], rs), Cross(qs[1..], rs));
      assert Cross([p + qs[0]], rs) == Prefixed(p + qs[0], rs);
    }
  }

  lemma PrefixedTwice(p: Names, q: Names, rs: seq<Names>)
    ensures Prefixed(p + q, rs) == Prefixed(p, Prefixed(q, rs))
  {
    PrefixedAll(p + q, rs);
    PrefixedAll(q, rs);
    PrefixedAll(p, Prefixed(q, rs));
    assert forall k :: 0 <= k < |rs| ==> p + q + rs[k] == p + (q + rs[k]);
  }

  lemma {:induction false} CrossAssociates(ps: seq<Names>, qs: seq<Names>, rs: seq<Names>)
    ensures Cross(Cross(ps, qs), rs) == Cross(ps, Cross(qs, rs))
  {
    if ps != [] {
      CrossAssociates(ps[1..], qs, rs);
      CrossAppend(Prefixed(ps[0], qs), Cross(ps[1..], qs), rs);
      PrefixedCross(ps[0], qs, rs);
    }
  }

  lemma {:induction false} AddNameIsCross(ps: seq<Names>, n: string)
    ensures Extended(ps, n) == Cross(ps, [[n]])
  {
    if ps != [] {
      AddNameIsCross(ps[1..], n);
      assert Prefixed(ps[0], [[n]]) == [ps[0] + [n]];
    }
  }

  lemma {:induction false} CrossSize(ps: seq<Names>, qs: seq<Names>)
    ensures |Cross(ps, qs)| == |ps| * |qs|
  {
    if ps != [] {
      PrefixedAll(ps[0], qs);
      CrossSize(ps[1..], qs);
    }
  }

  lemma {:induction false} ExpandSome(a: Alts)
    ensures |Expand(a)| >= 1
  {
    ExpandStepsSome(a.steps);
  }

  lemma {:induction false} ExpandStepsSome(s: Steps)
    ensures |ExpandSteps(s)| >= 1
  {
    ExpandItemSome(s.item);
    if s.Then? {
      ExpandStepsSome(s.more);
      CrossSize(ExpandItem(s.item), ExpandSteps(s.more));
    }
  }

  lemma {:induction false} ExpandItemSome(i: Item)
    ensures |ExpandItem(i)| >= 1
  {
    if i.Group? {
      ExpandSome(i.alts);
    }
  }

  lemma {:induction false} CodeStepsRight(now: seq<Names>, s: Steps)
    requires StepsFollow(s) && now != []
    ensures CodeSteps(now, s) == Cross(now, ExpandSteps(s))
    decreases s
  {
    CodeItemRight(now, s.item);
    if s.Then? {
      ExpandItemSome(s.item);
      CrossSize(now, ExpandItem(s.item));
      CodeStepsRight(CodeItem(now, s.item), s.more);
      CrossAssociates(now, ExpandItem(s.item), ExpandSteps(s.more));
    }
  }

  lemma {:induction false} CodeItemRight(now: seq<Names>, i: Item)
    requires ItemFollows(i) && now != []
    ensures CodeItem(now, i) == Cross(now, ExpandItem(i))
    decreases i
  {
    match i
    case Name(n) => AddNameIsCross(now, n);
    case Group(a) => CodeAltsRight(a);
  }

  lemma {:induction false} CodeAltsRight(a: Alts)
    requires GroupsFollow(a)
    ensures CodeAlts(a) == Expand(a)
    decreases a
  {
    CodeFirstRight(a.steps);
    if a.Either? {
      CodeAltsRight(a.more);
    }
  }

  lemma {:induction false} CodeFirstRight(s: Steps)
    requires s.item.Name? && StepsFollow(s)
    ensures CodeSteps([], s) == ExpandSteps(s)
    decreases s
  {
    if s.Then? {
      CodeStepsRight([[s.item.ident]], s.more);
    }
  }

  // ---------- and when it is not: some names get lost ----------

  function Total(ps: seq<Names>): nat {
    if ps == [] then 0 else |ps[0]| + Total(ps[1..])
  }

  lemma {:induction false} TotalAppend(ps: seq<Names>, qs: seq<Names>)
    ensures Total(ps + qs) == Total(ps) + Total(qs)
  {
    if ps == [] {
      assert ps + qs == qs;
    } else {
      assert (ps + qs)[1..] == ps[1..] + qs;
      TotalAppend(ps[1..], qs);
    }
  }

  lemma {:induction false} TotalPrefixed(p: Names, qs: seq<Names>)
    ensures Total(Prefixed(p, qs)) == |p| * |qs| + Total(qs)
  {
    if qs != [] {
      TotalPrefixed(p, qs[1..]);
      Distribute(|qs[1..]|, 1, |p|);
    }
  }

  lemma {:induction false} TotalCross(ps: seq<Names>, qs: seq<Names>)
    ensures Total(Cross(ps, qs)) == Total(ps) * |qs| + |ps| * Total(qs)
  {
    if ps != [] {
      TotalPrefixed(ps[0], qs);
      TotalCross(ps[1..], qs);
      TotalAppend(Prefixed(ps[0], qs), Cross(ps[1..], qs));
      Distribute(|ps[0]|, Total(ps[1..]), |qs|);
      Distribute(1, |ps[1..]|, Total(qs));
    }
  }

  lemma Distribute(a: nat, b: nat, c: nat)
    ensures (a + b) * c == a * c + b * c
  {
  }

  /** No more paths and no more names; `less` says that there are fewer names. */
  predicate AtMost(ps: seq<Names>, qs: seq<Names>, less: bool) {
    && |ps| <= |qs| && Total(ps) <= Total(qs)
    && (less ==> Total(ps) < Total(qs))
  }

  lemma CrossAtMost(ps: seq<Names>, qs: seq<Names>, ps': seq<Names>, qs': seq<Names>, less: bool, less': bool)
    requires AtMost(ps, qs, less) && AtMost(ps', qs', less') && qs != [] && qs' != []
    ensures AtMost(Cross(ps, ps'), Cross(qs, qs'), less || less')
  {
    CrossSize(ps, ps');
    CrossSize(qs, qs');
    TotalCross(ps, ps');
    TotalCross(qs, qs');
    Product(|ps|, |ps'|, |qs|, |qs'|);
    Product(Total(ps), |ps'|, Total(qs), |qs'|);
    Product(|ps|, Total(ps'), |qs|, Total(qs'));
  }

  lemma Product(a: nat, b: nat, c: nat, d: nat)
    requires a <= c && b <= d
    ensures a * b <= c * d
    ensures a < c && 0 < d ==> a * b < c * d
    ensures b < d && 0 < c ==> a * b < c * d
  {
    assert a * b <= c * b <= c * d;
    if a < c && 0 < d {
      assert a * b <= a * d;
      assert a * d < c * d by { assert c * d - a * d == (c - a) * d; }
    }
    if b < d && 0 < c {
      assert c * b < c * d by { assert c * d - c * b == c * (d - b); }
    }
  }

  lemma {:induction false} CodeItemAtMost(now: seq<Names>, exact: seq<Names>, less: bool, i: Item)
    requires AtMost(now, exact, less) && exact != [] && (now == [] ==> less)
    ensures AtMost(CodeItem(now, i), Cross(exact, ExpandItem(i)), less || !ItemFollows(i))
    ensures CodeItem(now, i) == [] ==> less || !ItemFollows(i)
    ensures Cross(exact, ExpandItem(i)) != []
    decreases i
  {
    ExpandItemSome(i);
    CrossSize(exact, ExpandItem(i));
    Product(1, 1, |exact|, |ExpandItem(i)|);
    match i
    case Name(n) =>
      AddNameIsCross(now, n);
      if now == [] {
        TotalCross(exact, [[n]]);
        assert Total([[n]]) == 1;
      } else {
        CrossAtMost(now, exact, [[n]], [[n]], less, false);
        CrossSize(now, [[n]]);
      }
    case Group(a) =>
      CodeAltsAtMost(a);
      CrossAtMost(now, exact, CodeAlts(a), Expand(a), less, !GroupsFollow(a));
      CrossSize(now, CodeAlts(a));
      if !less && GroupsFollow(a) {
        CodeAltsRight(a);
        ExpandSome(a);
        Product(1, 1, |now|, |CodeAlts(a)|);
      }
  }

  lemma {:induction false} CodeStepsAtMost(now: seq<Names>, exact: seq<Names>, less: bool, s: Steps)
    requires AtMost(now, exact, less) && exact != [] && (now == [] ==> less)
    ensures AtMost(CodeSteps(now, s), Cross(exact, ExpandSteps(s)), less || !StepsFollow(s))
    decreases s
  {
    CodeItemAtMost(now, exact, less, s.item);
    if s.Then? {
      CodeStepsAtMost(CodeItem(now, s.item), Cross(exact, ExpandItem(s.item)), less || !ItemFollows(s.item), s.more);
      CrossAssociates(exact, ExpandItem(s.item), ExpandSteps(s.more));
    }
  }

  lemma {:induction false} CodeFirstAtMost(s: Steps)
    ensures AtMost(CodeSteps([], s), ExpandSteps(s), !s.item.Name? || !StepsFollow(s))
    decreases s, 0
  {
    if s.item.Name? {
      assert ItemFollows(s.item);
      if s.Then? {
        CodeStepsAtMost([[s.item.ident]], [[s.item.ident]], false, s.more);
      }
    } else {
      ExpandTotal(s.item.alts);
      if s.Then? {
        ExpandItemSome(s.item);
        CodeStepsAtMost([], ExpandItem(s.item), true, s.more);
      }
    }
  }

  lemma {:induction false} ExpandTotal(a: Alts)
    ensures Total(Expand(a)) > 0
    decreases a
  {
    if a.Either? {
      TotalAppend(ExpandSteps(a.steps), Expand(a.more));
    }
    ExpandStepsTotal(a.steps);
  }

  lemma {:induction false} ExpandStepsTotal(s: Steps)
    ensures Total(ExpandSteps(s)) > 0
    decreases s
  {
    if s.item.Group? {
      ExpandTotal(s.item.alts);
    }
    assert Total(ExpandItem(s.item)) > 0;
    if s.Then? {
      ExpandStepsSome(s.more);
      TotalCross(ExpandItem(s.item), ExpandSteps(s.more));
      Product(1, 1, Total(ExpandItem(s.item)), |ExpandSteps(s.more)|);
    }
  }

  lemma {:induction false} CodeAltsAtMost(a: Alts)
    ensures AtMost(CodeAlts(a), Expand(a), !GroupsFollow(a))
    decreases a
  {
    CodeFirstAtMost(a.steps);
    if a.Either? {
      CodeAltsAtMost(a.more);
      TotalAppend(CodeSteps([], a.steps), CodeAlts(a.more));
      TotalAppend(ExpandSteps(a.steps), Expand(a.more));
    }
  }

  /** The compiler yields the paths a selector stands for, in order, if and only if every group follows a step. */
  lemma CompilesRight(a: Alts, s: string)
    requires AltsNamed(a) && NoSlashes(Tokens(s)) == AltsTokens(a)
    ensures Parse(Tokens(s), [], []).paths == Expand(a) <==> GroupsFollow(a)
  {
    SlashesIgnored(Tokens(s), [], []);
    assert AltsTokens(a) + [] == AltsTokens(a) && [] + CodeAlts(a) == CodeAlts(a);
    ParseAlts(a, [], []);
    if GroupsFollow(a) {
      CodeAltsRight(a);
    } else {
      CodeAltsAtMost(a);
    }
  }

  // ---------- the written form ----------

  function AltsText(a: Alts): string {
    match a
    case Last(s) => StepsText(s)
    case Either(s, more) => StepsText(s) + (";" + AltsText(more))
  }

  function StepsText(s: Steps): string {
    match s
    case Only(i) => ItemText(i)
    case Then(i, more) => ItemText(i) + ("/" + StepsText(more))
  }

  function ItemText(i: Item): string {
    match i
    case Name(n) => n
    case Group(a) => "(" + (AltsText(a) + ")")
  }

  predicate Bounded(rest: string) {
    rest == "" || Delimiter(rest[0])
  }

  lemma {:induction false} NameEnds(n: string, rest: string)
    requires (forall k :: 0 <= k < |n| ==> !Delimiter(n[k])) && Bounded(rest)
    ensures NameLength(n + rest) == |n|
  {
    if n == "" {
      assert n + rest == rest;
    } else {
      assert (n + rest)[1..] == n[1..] + rest;
      NameEnds(n[1..], rest);
    }
  }

  lemma TokensDelimiter(c: char, rest: string)
    requires Delimiter(c)
    ensures Tokens([c] + rest) == [[c]] + Tokens(rest)
  {
    assert ([c] + rest)[..1] == [c] && ([c] + rest)[1..] == rest;
  }

  lemma {:induction false} NoSlashesAppend(a: seq<string>, b: seq<string>)
    ensures NoSlashes(a + b) == NoSlashes(a) + NoSlashes(b)
  {
    if a == [] {
      assert a + b == b;
    } else {
      assert (a + b)[1..] == a[1..] + b;
      NoSlashesAppend(a[1..], b);
    }
  }

  ghost function Words(s: string): seq<string> {
    NoSlashes(Tokens(s))
  }

  lemma WordsDelimiter(c: char, rest: string)
    requires Delimiter(c)
    ensures Words([c] + rest) == (if c == '/' then [] else [[c]]) + Words(rest)
  {
    TokensDelimiter(c, rest);
    NoSlashesAppend([[c]], Tokens(rest));
    assert c == '/' ==> [c] == "/";
    assert NoSlashes([]) == [];
    assert NoSlashes([[c]]) == if c == '/' then [] else [[c]];
  }

  lemma Regroup<T>(a: seq<T>, c: T, b: seq<T>, rest: seq<T>)
    ensures a + ([c] + b) + rest == a + ([c] + (b + rest))
    ensures [c] + b + rest == [c] + (b + rest)
  {
  }

  lemma GroupIsWritten(a: Alts, rest: string)
    ensures ItemText(Group(a)) + rest == ['('] + (AltsText(a) + ([')'] + rest))
    ensures ItemTokens(Group(a)) + Words(rest) == ["("] + (AltsTokens(a) + ([")"] + Words(rest)))
  {
    hide AltsText, AltsTokens, Words;
    Regroup([], '(', AltsText(a) + [')'], rest);
    Regroup(AltsText(a), ')', [], rest);
    Regroup([], "(", AltsTokens(a) + [")"], Words(rest));
    Regroup(AltsTokens(a), ")", [], Words(rest));
  }

  lemma NameIsWritten(n: string, rest: string)
    requires ItemNamed(Name(n)) && Bounded(rest)
    ensures Words(n + rest) == [n] + Words(rest)
  {
    NameEnds(n, rest);
    assert (n + rest)[..|n|] == n && (n + rest)[|n|..] == rest;
    assert Tokens(n + rest) == [n] + Tokens(rest);
    assert n != "/" by { assert !Delimiter(n[0]); }
  }

  lemma {:induction false} ItemIsWritten(i: Item, rest: string)
    requires ItemNamed(i) && Bounded(rest)
    ensures Words(ItemText(i) + rest) == ItemTokens(i) + Words(rest)
    decreases i
  {
    match i
    case Name(n) =>
      NameIsWritten(n, rest);
    case Group(a) =>
      GroupIsWritten(a, rest);
      BoundedBy(')', rest);
      hide *;
      WordsDelimiter('(', AltsText(a) + ([')'] + rest));
      AltsIsWritten(a, [')'] + rest);
      WordsDelimiter(')', rest);
  }

  lemma BoundedBy(c: char, rest: string)
    ensures Delimiter('(') && Delimiter(')') && Delimiter('/') && Delimiter(';')
    ensures Delimiter(c) ==> Bounded([c] + rest)
  {
  }

  lemma ThenIsWritten(i: Item, more: Steps, rest: string)
    ensures StepsText(Then(i, more)) + rest == ItemText(i) + (['/'] + (StepsText(more) + rest))
    ensures StepsTokens(Then(i, more)) + Words(rest) == ItemTokens(i) + (StepsTokens(more) + Words(rest))
    ensures Delimiter('/') && Bounded(['/'] + (StepsText(more) + rest))
  {
    Regroup(ItemText(i), '/', StepsText(more), rest);
    hide Words, ItemText, ItemTokens;
    assert StepsText(Then(i, more)) == ItemText(i) + (['/'] + StepsText(more));
  }

  lemma {:induction false} StepsIsWritten(s: Steps, rest: string)
    requires StepsNamed(s) && Bounded(rest)
    ensures Words(StepsText(s) + rest) == StepsTokens(s) + Words(rest)
    decreases s
  {
    match s
    case Only(i) => ItemIsWritten(i, rest);
    case Then(i, more) =>
      ThenIsWritten(i, more, rest);
      hide Words, StepsText, StepsTokens, ItemText, ItemTokens, Bounded;
      ItemIsWritten(i, ['/'] + (StepsText(more) + rest));
      WordsDelimiter('/', StepsText(more) + rest);
      StepsIsWritten(more, rest);
  }

  lemma {:induction false} AltsIsWritten(a: Alts, rest: string)
    requires AltsNamed(a) && Bounded(rest)
    ensures Words(AltsText(a) + rest) == AltsTokens(a) + Words(rest)
    decreases a
  {
    match a
    case Last(s) => StepsIsWritten(s, rest);
    case Either(s, more) =>
      Regroup(StepsText(s), ';', AltsText(more), rest);
      Regroup(StepsTokens(s), ";", AltsTokens(more), Words(rest));
      BoundedBy(';', AltsText(more) + rest);
      assert AltsText(a) == StepsText(s) + ([';'] + AltsText(more));
      hide Words, StepsText, StepsTokens;
      StepsIsWritten(s, [';'] + (AltsText(more) + rest));
      WordsDelimiter(';', AltsText(more) + rest);
      AltsIsWritten(more, rest);
  }

  /**
    So the written form of a selector compiles to the paths it stands for if and only if every group follows a step.
  */
  lemma CompilesWritten(a: Alts)
    requires AltsNamed(a)
    ensures Parse(Tokens(AltsText(a)), [], []).paths == Expand(a) <==> GroupsFollow(a)
  {
    AltsIsWritten(a, "");
    assert AltsText(a) + "" == AltsText(a) && AltsTokens(a) + Words("") == AltsTokens(a);
    CompilesRight(a, AltsText(a));
  }

  // ---------- matching ----------

  /** Where a match of the selector against `path` that starts at `at` can end. */
  function AltsEnds(a: Alts, path: Names, at: nat): set<nat>
    decreases a
  {
    match a
    case Last(s) => StepsEnds(s, path, at)
    case Either(s, more) => StepsEnds(s, path, at) + AltsEnds(more, path, at)
  }

  function StepsEnds(s: Steps, path: Names, at: nat): set<nat>
    decreases s
  {
    match s
    case Only(i) => ItemEnds(i, path, at)
    case Then(i, more) => set m, n | m in ItemEnds(i, path, at) && n in StepsEnds(more, path, m) :: n
  }

  function ItemEnds(i: Item, path: Names, at: nat): set<nat>
    decreases i
  {
    match i
    case Name(n) => if at < |path| && path[at] == n then {at + 1} else {}
    case Group(a) => AltsEnds(a, path, at)
  }

  predicate Spans(path: Names, at: nat, p: Names, end: nat) {
    end == at + |p| <= |path| && path[at..end] == p
  }

  predicate SpansSome(path: Names, at: nat, ps: seq<Names>, end: nat) {
    exists k :: 0 <= k < |ps| && Spans(path, at, ps[k], end)
  }

  lemma SpansAppend(path: Names, at: nat, ps: seq<Names>, qs: seq<Names>, end: nat)
    ensures SpansSome(path, at, ps + qs, end) <==> SpansSome(path, at, ps, end) || SpansSome(path, at, qs, end)
  {
    if k :| 0 <= k < |ps| && Spans(path, at, ps[k], end) {
      assert (ps + qs)[k] == ps[k];
    }
    if k :| 0 <= k < |qs| && Spans(path, at, qs[k], end) {
      assert (ps + qs)[|ps| + k] == qs[k];
    }
  }

  lemma SpansBoth(path: Names, at: nat, p: Names, q: Names, end: nat)
    ensures Spans(path, at, p + q, end)
       <==> at + |p| <= |path| && Spans(path, at, p, at + |p|) && Spans(path, at + |p|, q, end)
  {
    if end == at + |p| + |q| <= |path| {
      assert path[at..end] == path[at..at + |p|] + path[at + |p|..end];
      if path[at..end] == p + q {
        assert path[at..at + |p|] == path[at..end][..|p|] == p;
        assert path[at + |p|..end] == path[at..end][|p|..] == q;
      }
    }
  }

  lemma SpansPrefixed(path: Names, at: nat, p: Names, qs: seq<Names>, end: nat)
    ensures SpansSome(path, at, Prefixed(p, qs), end) <==>
              Spans(path, at, p, at + |p|) && SpansSome(path, at + |p|, qs, end)
  {
    PrefixedAll(p, qs);
    forall k | 0 <= k < |qs|
      ensures Spans(path, at, Prefixed(p, qs)[k], end) <==>
                Spans(path, at, p, at + |p|) && Spans(path, at + |p|, qs[k], end)
    {
      SpansBoth(path, at, p, qs[k], end);
    }
  }

  predicate Through(path: Names, at: nat, ps: seq<Names>, qs: seq<Names>, mid: nat, end: nat) {
    SpansSome(path, at, ps, mid) && SpansSome(path, mid, qs, end)
  }

  lemma {:induction false} SpansCross(path: Names, at: nat, ps: seq<Names>, qs: seq<Names>, end: nat)
    ensures SpansSome(path, at, Cross(ps, qs), end) <==> exists mid :: Through(path, at, ps, qs, mid, end)
  {
    if ps != [] {
      SpansAppend(path, at, Prefixed(ps[0], qs), Cross(ps[1..], qs), end);
      SpansPrefixed(path, at, ps[0], qs, end);
      SpansCross(path, at, ps[1..], qs, end);
      assert ps == [ps[0]] + ps[1..];
      forall mid ensures Through(path, at, ps, qs, mid, end)
                    <==> (Spans(path, at, ps[0], mid) && SpansSome(path, mid, qs, end))
                         || Through(path, at, ps[1..], qs, mid, end)
      {
        SpansAppend(path, at, [ps[0]], ps[1..], mid);
        assert SpansSome(path, at, [ps[0]], mid) <==> Spans(path, at, ps[0], mid) by {
          assert [ps[0]][0] == ps[0];
        }
      }
      if SpansSome(path, at, Prefixed(ps[0], qs), end) {
        assert Through(path, at, ps, qs, at + |ps[0]|, end);
      }
      if mid :| Through(path, at, ps[1..], qs, mid, end) {
        assert Through(path, at, ps, qs, mid, end);
      }
    }
  }

  /** Matching a selector directly is matching one of the paths it stands for. */
  lemma {:induction false} AltsEndsAre(a: Alts, path: Names, at: nat, end: nat)
    ensures end in AltsEnds(a, path, at) <==> SpansSome(path, at, Expand(a), end)
    decreases a
  {
    StepsEndsAre(a.steps, path, at, end);
    if a.Either? {
      AltsEndsAre(a.more, path, at, end);
      SpansAppend(path, at, ExpandSteps(a.steps), Expand(a.more), end);
    }
  }

  lemma {:induction false} StepsEndsAre(s: Steps, path: Names, at: nat, end: nat)
    ensures end in StepsEnds(s, path, at) <==> SpansSome(path, at, ExpandSteps(s), end)
    decreases s
  {
    match s
    case Only(i) => ItemEndsAre(i, path, at, end);
    case Then(i, more) =>
      SpansCross(path, at, ExpandItem(i), ExpandSteps(more), end);
      forall mid: nat
        ensures (mid in ItemEnds(i, path, at) && end in StepsEnds(more, path, mid))
           <==> Through(path, at, ExpandItem(i), ExpandSteps(more), mid, end)
      {
        ItemEndsAre(i, path, at, mid);
        StepsEndsAre(more, path, mid, end);
      }
  }

  lemma {:induction false} ItemEndsAre(i: Item, path: Names, at: nat, end: nat)
    ensures end in ItemEnds(i, path, at) <==> SpansSome(path, at, ExpandItem(i), end)
    decreases i
  {
    match i
    case Name(n) =>
      assert SpansSome(path, at, [[n]], end) <==> Spans(path, at, [n], end) by {
        assert [[n]][0] == [n];
      }
    case Group(a) => AltsEndsAre(a, path, at, end);
  }
}
