/**
  The lexer of YANG files (parser/lexer.go): statement by statement it pushes tokens into a ring of fixed size, from
  which the parser takes them, and skips the blanks and comments between them.
*/
module Lexer {
  import opened Wrappers
  import opened LexerText
  import opened LexerGrammar
  import LexerTokens
  import LexerPrinted
  import LexerReading

  const RING := 64

  // ---------- what has been read ----------

  function TokensOf(pieces: seq<Piece>): (r: seq<Token>)
    ensures |r| == |pieces|
    ensures forall i :: 0 <= i < |r| ==> r[i] == pieces[i].token
  {
    if pieces == [] then [] else TokensOf(pieces[..|pieces| - 1]) + [pieces[|pieces| - 1].token]
  }

  /** The tokens that have not been taken yet. */
  function Waiting(pieces: seq<Piece>, popped: nat): (r: seq<Token>)
    requires popped <= |pieces|
    ensures |r| == |pieces| - popped
  {
    TokensOf(pieces)[popped..]
  }

  lemma TailMore<T>(a: seq<T>, b: T, n: nat)
    requires n <= |a|
    ensures (a + [b])[n..] == a[n..] + [b]
  {
  }

  lemma WaitingMore(pieces: seq<Piece>, p: Piece, n: nat)
    requires n <= |pieces|
    ensures Waiting(pieces + [p], n) == Waiting(pieces, n) + [p.token]
  {
    assert (pieces + [p])[..|pieces|] == pieces;
    assert TokensOf(pieces + [p]) == TokensOf(pieces) + [p.token];
    hide TokensOf;
    TailMore(TokensOf(pieces), p.token, n);
  }

  lemma WaitingLess(pieces: seq<Piece>, n: nat)
    requires n < |pieces|
    ensures Waiting(pieces, n)[0] == pieces[n].token && Waiting(pieces, n)[1..] == Waiting(pieces, n + 1)
  {
  }

  // ---------- the ring ----------

  function Slot(tail: nat, k: nat): (r: nat)
    ensures r < RING
  {
    (tail + k) % RING
  }

  /** The ring holds the given tokens, of which there are fewer than it has slots. */
  ghost predicate Holds(ring: seq<Token>, head: nat, tail: nat, tokens: seq<Token>) {
    && |ring| == RING && tail < RING && |tokens| < RING
    && head == Slot(tail, |tokens|)
    && forall k :: 0 <= k < |tokens| ==> ring[Slot(tail, k)] == tokens[k]
  }

  lemma SlotsDiffer(tail: nat, j: nat, k: nat)
    requires j < k < RING
    ensures Slot(tail, j) != Slot(tail, k)
  {
  }

  lemma SlotNext(tail: nat, k: nat)
    ensures (Slot(tail, k) + 1) % RING == Slot(tail, k + 1)
    ensures tail < RING ==> Slot((tail + 1) % RING, k) == Slot(tail, k + 1) && Slot(tail, 0) == tail
  {
    ModStep(tail + k);
    if tail < RING {
      if tail + 1 < RING {
        assert (tail + 1) % RING == tail + 1;
      } else {
        ModRound(k);
      }
    }
  }

  lemma ModStep(a: nat)
    ensures (a % RING + 1) % RING == (a + 1) % RING
  {
  }

  lemma ModRound(k: nat)
    ensures (RING + k) % RING == k % RING
  {
  }

  lemma PushHolds(ring: seq<Token>, head: nat, tail: nat, tokens: seq<Token>, t: Token)
    requires Holds(ring, head, tail, tokens) && |tokens| + 1 < RING
    ensures Holds(ring[head := t], (head + 1) % RING, tail, tokens + [t])
  {
    SlotNext(tail, |tokens|);
    forall k | 0 <= k < |tokens| + 1 ensures ring[head := t][Slot(tail, k)] == (tokens + [t])[k] {
      if k < |tokens| {
        SlotsDiffer(tail, k, |tokens|);
      }
    }
  }

  /** How many tokens there seem to be between tail and head. */
  function Held(head: nat, tail: nat): nat {
    (head + RING - tail) % RING
  }

  lemma HeldPush(head: nat, tail: nat)
    requires head < RING && tail < RING
    ensures Held((head + 1) % RING, tail) == if (head + 1) % RING == tail then 0 else Held(head, tail) + 1
    ensures Held(head, tail) == 0 <==> head == tail
  {
  }

  lemma HeldPop(head: nat, tail: nat)
    requires head < RING && tail < RING && head != tail
    ensures Held(head, (tail + 1) % RING) + 1 == Held(head, tail)
  {
  }

  /** One token more than fits makes the ring look empty. */
  lemma PushOverflows(ring: seq<Token>, head: nat, tail: nat, tokens: seq<Token>)
    requires Holds(ring, head, tail, tokens) && |tokens| + 1 == RING
    ensures (head + 1) % RING == tail
  {
    SlotNext(tail, |tokens|);
  }

  lemma PopHolds(ring: seq<Token>, head: nat, tail: nat, tokens: seq<Token>)
    requires Holds(ring, head, tail, tokens)
    ensures head == tail <==> tokens == []
    ensures tokens != [] ==> ring[tail] == tokens[0] && Holds(ring, head, (tail + 1) % RING, tokens[1..])
  {
    SlotNext(tail, 0);
    if tokens != [] {
      SlotsDiffer(tail, 0, |tokens|);
      SlotNext(tail, |tokens| - 1);
      forall k | 0 <= k < |tokens| - 1 ensures ring[Slot((tail + 1) % RING, k)] == tokens[1..][k] {
        SlotNext(tail, k);
      }
    }
  }

  // ---------- the lexer ----------

  class Lexer {
    const input: string
    const chars: Chars
    const tokens: array<Token>
    var pos: nat
    var start: nat
    var width: nat
    var head: nat
    var tail: nat
    var more: bool    // there is a next statement
    var failed: bool  // an error has been reported
    var stuck: bool   // it never returns: a comment is not closed, or the input ends within an extension statement
    var crashed: bool // in particular because it has read beyond the input
    ghost var pieces: seq<Piece>  // all tokens that were emitted, with what was skipped behind them
    ghost var popped: nat
    ghost var lost: bool          // more tokens were pushed than the ring can hold

    ghost predicate Valid()
      reads this, tokens
    {
      && Proper(chars) && start <= pos <= |input| && width <= 1
      && tokens.Length == RING && head < RING && tail < RING && popped <= |pieces| && (crashed ==> stuck)
      && (!lost ==> |pieces| - popped < RING)
      && (!lost ==> Holds(tokens[..], head, tail, Waiting(pieces, popped)))
    }

    /** Between two tokens. */
    ghost predicate Starts()
      reads this, tokens
    {
      Valid() && !stuck && start == pos
    }

    function InRing(): nat
      reads this
    {
      Held(head, tail)
    }

    /** There are still as many tokens more in the ring than before as were emitted, unless some were lost. */
    ghost predicate Kept(held: nat, emitted: nat, wasLost: bool)
      reads this
    {
      InRing() + emitted + (if lost && !wasLost then 1 else 0) <= held + |pieces|
    }

    /** Tokens are only added, and some are lost exactly if more wait than the ring can hold. */
    twostate predicate Advanced()
      reads this
    {
      && popped == old(popped) && old(pos) <= pos
      && lost == (old(lost) || |pieces| - popped >= RING) && Kept(old(InRing()), |old(pieces)|, old(lost))
    }

    /** The same, and there is neither an error nor an end of the text. */
    twostate predicate Emits()
      reads this
    {
      Advanced() && more == old(more) && failed == old(failed)
    }

    /** Nothing has changed. */
    twostate predicate Idle()
      reads this
    {
      Same() && pos == old(pos)
    }

    /** Nothing but the position has changed. */
    twostate predicate Same()
      reads this
    {
      && popped == old(popped) && lost == old(lost) && pieces == old(pieces) && start == old(start)
      && head == old(head) && tail == old(tail) && more == old(more) && failed == old(failed) && !stuck
    }

    /** Behind the pieces `before` the given ones were read. */
    ghost predicate Went(before: seq<Piece>, l: Lexed)
      reads this
    {
      && pieces == before + l.pieces
      && match l
         case Read(_, end) => !stuck && start == pos == end
         case Wrong(_) => !stuck
         case Hangs(_, crash) => stuck && crashed == crash
    }

    constructor (input: string, chars: Chars)
      requires Proper(chars)
      ensures Valid() && pieces == [] && popped == 0 && !lost && !failed && more && InRing() == 0
      ensures this.input == input && this.chars == chars && fresh(tokens) && (!stuck ==> start == pos)
      ensures All() == Text(chars, input) && Fitting() == Fits(chars, input, RING)
    {
      this.input, this.chars := input, chars;
      tokens := new Token[RING](_ => Token(IdentToken, ""));
      pos, start, width, head, tail, more, failed, stuck, crashed := 0, 0, 0, 0, 0, true, false, false, false;
      pieces, popped, lost := [], 0, false;
      new;
      hide Waiting, StatementAt, FORMS, SkipFrom;
      HeldPush(0, 0);
      AcceptBlanks();
      start := pos;
      if !stuck {
        BehindBoth([], [], TextFrom(chars, input, pos));
      }
    }

    method Next() returns (r: char)
      requires Valid()
      modifies this`pos, this`width
      ensures Valid() && pos == old(pos) + width
      ensures if old(pos) < |input| then width == 1 && r == input[old(pos)] else width == 0 && r == EOF
    {
      if pos >= |input| {
        width := 0;
        return EOF;
      }
      r := input[pos];
      width := 1;
      pos := pos + 1;
    }

    method Backup()
      requires Valid() && start + width <= pos
      modifies this`pos
      ensures Valid() && pos == old(pos) - width
    {
      pos := pos - width;
    }

    /** The loop of acceptWS, which ends where blanks and comments end. */
    method AcceptBlanks()
      requires Valid() && !stuck
      modifies this`pos, this`width, this`stuck, this`crashed
      ensures Valid() && old(pos) <= pos
      ensures match SkipFrom(chars.space, input, old(pos))
              case Upto(end) => !stuck && pos == end
              case Endless => stuck && !crashed
              case OutOfRange => stuck && crashed
    {
      hide Holds, Waiting, SkipFrom, Find, At;
      while true
        invariant Valid() && !stuck && old(pos) <= pos
        invariant SkipFrom(chars.space, input, pos) == SkipFrom(chars.space, input, old(pos))
        decreases |input| - pos
      {
        AcceptSpaces();
        SkipStep(chars.space, input, pos);
        if At(input, pos, "/*") {
          AcceptComment("*/");
        } else if At(input, pos, "//") {
          AcceptComment("\n");
          crashed := stuck;
        } else {
          return;
        }
        if stuck {
          return;
        }
      }
    }

    method AcceptSpaces()
      requires Valid() && !stuck
      modifies this`pos, this`width
      ensures Valid() && old(pos) <= pos && !(pos < |input| && chars.space(input[pos]))
      ensures SkipFrom(chars.space, input, pos) == SkipFrom(chars.space, input, old(pos))
    {
      hide Holds, Waiting, SkipFrom;
      var r := Next();
      while chars.space(r)
        invariant Valid() && !stuck && old(pos) <= pos - width
        invariant if width == 1 then r == input[pos - 1] else r == EOF && pos == |input|
        invariant SkipFrom(chars.space, input, pos - width) == SkipFrom(chars.space, input, old(pos))
        decreases |input| - pos, width
      {
        SkipStep(chars.space, input, pos - width);
        r := Next();
      }
      Backup();
    }

    /** Goes behind the next end of a comment. */
    method AcceptComment(end: string)
      requires Valid() && !stuck && pos < |input| && end != ""
      modifies this`pos, this`width, this`stuck
      ensures Valid() && old(pos) < pos
      ensures var e := Find(input, old(pos) + 1, end);
              if stuck then e == None else e.Some? && pos == e.value + |end|
    {
      hide Holds, Waiting, At, Find;
      var _ := Next();
      while !At(input, pos, end)
        invariant Valid() && !stuck && old(pos) < pos
        invariant Find(input, pos, end) == Find(input, old(pos) + 1, end)
        decreases |input| - pos
      {
        FindStep(input, pos, end);
        if pos == |input| {
          stuck := true;
          return;
        }
        var _ := Next();
      }
      FindStep(input, pos, end);
      pos := pos + |end|;
    }

    method PushToken(t: Token)
      requires Valid()
      modifies this`head, this`lost, tokens
      ensures head < RING && InRing() <= old(InRing()) + 1 && (lost && !old(lost) ==> InRing() <= old(InRing()))
      ensures lost == (old(lost) || |pieces| - popped + 1 >= RING)
      ensures !lost ==> Holds(tokens[..], head, tail, Waiting(pieces, popped) + [t])
    {
      ghost var waiting := Waiting(pieces, popped);
      if !lost && |waiting| + 1 < RING {
        PushHolds(tokens[..], head, tail, waiting, t);
      }
      if !lost && |waiting| + 1 >= RING {
        PushOverflows(tokens[..], head, tail, waiting);
      }
      HeldPush(head, tail);
      ghost var ring := tokens[..];
      tokens[head] := t;
      assert tokens[..] == ring[head := t];
      head := (head + 1) % tokens.Length;
      lost := lost || |waiting| + 1 >= RING;
    }

    method PopToken() returns (t: Token)
      requires Valid() && (!lost ==> popped < |pieces|)
      modifies this`tail, this`popped
      ensures Valid()
      ensures if lost then popped == old(popped) else popped == old(popped) + 1 && t == pieces[old(popped)].token
      ensures head != old(tail) ==> InRing() + 1 == old(InRing())
    {
      if head != tail {
        HeldPop(head, tail);
      }
      if !lost {
        PopHolds(tokens[..], head, tail, Waiting(pieces, popped));
        WaitingLess(pieces, popped);
      }
      hide Holds, Waiting;
      t := tokens[tail];
      if !lost {
        popped := popped + 1;
      }
      tail := (tail + 1) % tokens.Length;
    }

    /** What is between `start` and `pos` becomes a token; then blanks and comments are skipped. */
    method Emit(typ: TokenType)
      requires Valid() && !stuck
      modifies this, tokens
      ensures Valid() && Emits() && Went(old(pieces), Taken(chars, input, typ, old(start), old(pos)))
    {
      hide Holds, Waiting, SkipFrom, Held;
      ghost var before, mid := pieces, pos;
      var t := Token(typ, input[start..pos]);
      PushPiece(t);
      AcceptBlanks();
      if !stuck {
        WaitingMore(before, Piece(t, ""), popped);
        WaitingMore(before, Piece(t, input[mid..pos]), popped);
        pieces := before + [Piece(t, input[mid..pos])];
      }
      start := pos;
    }

    method PushPiece(t: Token)
      requires Valid() && !stuck
      modifies this, tokens
      ensures Valid() && Emits() && !stuck
      ensures start == pos == old(pos) && pieces == old(pieces) + [Piece(t, "")]
    {
      hide Holds, Waiting, Held;
      PushToken(t);
      WaitingMore(pieces, Piece(t, ""), popped);
      pieces := pieces + [Piece(t, "")];
      start := pos;
    }

    lemma WentBehind(before: seq<Piece>, read: seq<Piece>, l: Lexed)
      ensures Went(before + read, l) <==> Went(before, Behind(read, l))
      ensures Behind(read, l).Wrong? == l.Wrong? && Behind(read, l).Hangs? == l.Hangs?
    {
      assert before + read + l.pieces == before + (read + l.pieces);
    }

    // ---------- the kinds of tokens ----------

    method AcceptKeyword(word: Word) returns (ok: bool)
      requires Starts()
      modifies this, tokens
      ensures Valid() && Emits() && Went(old(pieces), KeywordAt(chars, input, old(pos), word))
      ensures ok == !KeywordAt(chars, input, old(pos), word).Wrong? && (!ok ==> Idle())
    {
      hide Holds, Waiting, Held, Taken;
      ok := At(input, pos, word);
      if ok {
        pos := pos + |word|;
        Emit(Keyword(word));
      }
    }

    /** An identifier, or (if `prefixed`) one with a prefix. */
    method AcceptIdent(prefixed: bool) returns (ok: bool)
      requires Starts()
      modifies this, tokens
      ensures Valid() && Emits() && Went(old(pieces), IdentAt(chars, input, old(pos), prefixed))
      ensures ok == !IdentAt(chars, input, old(pos), prefixed).Wrong? && (!ok && !prefixed ==> Idle())
    {
      hide Holds, Waiting, Held, Taken, IsPrefixed, IdentEnd, IsIdent;
      ToIdentEnd();
      if prefixed && !IsPrefixed(input[start..pos]) {
        return false;
      }
      ok := start < pos;
      if ok {
        Emit(if prefixed then ExtensionToken else IdentToken);
      }
    }

    /** Moves as far as the characters of an identifier go. */
    method ToIdentEnd()
      requires Starts()
      modifies this`pos, this`width
      ensures Valid() && pos == IdentEnd(chars, input, old(pos))
    {
      hide Holds, Waiting, Held, IdentEnd, IsIdent, Proper, TokensOf;
      var r := Next();
      IdentStep(chars, input, pos - width);
      while IsIdent(chars, r)
        invariant Valid() && start <= old(pos) <= pos - width
        invariant if width == 1 then r == input[pos - 1] else r == EOF && pos == |input|
        invariant IdentEnd(chars, input, pos - width) == IdentEnd(chars, input, old(pos))
        decreases |input| - pos, width
      {
        IdentStep(chars, input, pos - width);
        r := Next();
      }
      IdentStep(chars, input, pos - width);
      Backup();
    }

    /** A number, as long as it goes; a decimal point is allowed behind its first character if `decimal`. */
    method AcceptNumber(decimal: bool) returns (ok: bool)
      requires Starts()
      modifies this, tokens
      ensures Valid() && Emits() && Went(old(pieces), NumberAt(chars, input, old(pos), decimal))
      ensures ok == !NumberAt(chars, input, old(pos), decimal).Wrong? && (!ok ==> Idle())
    {
      hide Holds, Waiting, Held, Taken;
      ok := false;
      while true
        invariant Valid() && Same() && (ok <==> start < pos)
        invariant NumberEnd(chars.digit, input, pos, ok, decimal)
               == NumberEnd(chars.digit, input, old(pos), false, decimal)
        decreases |input| - pos
      {
        var r := Next();
        var sign := (r == '-' || r == '+') && !ok;
        var point := decimal && r == '.' && ok;
        if !chars.digit(r) && !sign && !point {
          Backup();
          if ok {
            Emit(NumberToken);
          }
          return;
        }
        ok := true;
      }
    }

    /** A string in quotes, to which others may be joined by `+`, or one that ends before a blank, `;` or `{`. */
    method AcceptString() returns (ok: bool)
      requires Starts()
      modifies this, tokens
      ensures Valid() && Emits() && Went(old(pieces), StringAt(chars, input, old(pos)))
      ensures ok == !StringAt(chars, input, old(pos)).Wrong?
      decreases |input| - pos
    {
      hide Holds, Waiting, Taken, Held, Behind, StringAt, KeywordAt, FirstString, Proper;
      StringStep(chars, input, pos);
      ghost var from := pos;
      var quoted;
      ok, quoted := AcceptFirst();
      if ok && quoted && !stuck {
        ghost var first, plus := FirstAt(chars, input, from), KeywordAt(chars, input, pos, "+");
        var joined := AcceptKeyword("+");
        WentBehind(old(pieces), first.pieces, plus);
        if joined && !stuck {
          ghost var rest := StringAt(chars, input, pos);
          ok := AcceptString();
          WentBehind(old(pieces) + first.pieces, plus.pieces, rest);
          WentBehind(old(pieces), first.pieces, Behind(plus.pieces, rest));
        }
      }
    }

    /** A string, without those that are joined to it. */
    method AcceptFirst() returns (ok: bool, quoted: bool)
      requires Starts()
      modifies this, tokens
      ensures Valid() && Emits() && Went(old(pieces), FirstAt(chars, input, old(pos)))
      ensures ok == !FirstAt(chars, input, old(pos)).Wrong? && quoted == Quoted(input, old(pos))
    {
      hide Holds, Waiting, Taken, Held;
      var begin := Next();
      quoted := begin == '\"' || begin == '\'';
      ok := ToTheEnd(begin, quoted);
      if ok {
        Emit(StringToken);
      }
    }

    /** Moves to the end of a string; false if it has none. */
    method ToTheEnd(begin: char, quoted: bool) returns (ok: bool)
      requires Valid() && !stuck
      modifies this`pos, this`width
      ensures Valid() && old(pos) <= pos
      ensures StringEnd(chars.space, input, old(pos), begin, quoted) == if ok then Some(pos) else None
    {
      hide Holds, Waiting;
      while true
        invariant Valid() && !stuck && old(pos) <= pos
        invariant StringEnd(chars.space, input, pos, begin, quoted)
               == StringEnd(chars.space, input, old(pos), begin, quoted)
        decreases |input| - pos
      {
        var r := Next();
        if r == EOF {
          return !quoted;
        }
        if !quoted {
          if chars.space(r) || r == ';' || r == '{' {
            Backup();
            return true;
          }
        } else if r == '\\' && begin == '\"' {
          var _ := Next();
        } else if r == begin {
          return true;
        }
      }
    }

    // ---------- statements ----------

    method AcceptOneOf(words: seq<Word>) returns (ok: bool)
      requires Starts()
      modifies this, tokens
      ensures Valid() && Emits() && Went(old(pieces), OneOfAt(chars, input, old(pos), words))
      ensures ok == !OneOfAt(chars, input, old(pos), words).Wrong? && (!ok ==> Idle())
    {
      hide Holds, Waiting, Held, Taken, At;
      ok := false;
      var i := 0;
      while i < |words|
        invariant i <= |words| && Valid() && Idle()
        invariant OneOfAt(chars, input, pos, words[i..]) == OneOfAt(chars, input, pos, words)
      {
        ok := AcceptKeyword(words[i]);
        if ok {
          return;
        }
        i := i + 1;
      }
      assert words[i..] == [];
    }

    method AcceptArg(arg: Arg) returns (ok: bool)
      requires Starts()
      modifies this, tokens
      ensures Valid() && Emits() && Went(old(pieces), ArgAt(chars, input, old(pos), arg))
      ensures ok == !ArgAt(chars, input, old(pos), arg).Wrong?
    {
      hide Holds, Waiting, KeywordAt, StringAt, IdentAt, NumberAt, OneOfAt, DeviateAt, At;
      match arg
      case AnIdent => ok := AcceptIdent(false);
      case AString => ok := AcceptString();
      case NumberOrString =>
        ok := AcceptNumber(true);
        if !ok {
          ok := AcceptString();
        }
      case Integer =>
        ok := AcceptKeyword("unbounded");
        if !ok {
          ok := AcceptNumber(false);
        }
      case OneOf(words) => ok := AcceptOneOf(words);
      case Deviate => ok := AcceptDeviate();
      case OpenBrace => ok := AcceptKeyword("{");
      case End => ok := AcceptOneOf(ENDS);
    }

    method AcceptDeviate() returns (ok: bool)
      requires Starts()
      modifies this, tokens
      ensures Valid() && Emits() && Went(old(pieces), DeviateAt(chars, input, old(pos)))
      ensures ok == !DeviateAt(chars, input, old(pos)).Wrong?
    {
      hide Holds, Waiting, Held, Taken, At;
      ok := AcceptKeyword("not-supported");
      if ok {
        if !stuck {
          ok := AcceptOneOf(["{", ";"]);
        }
        return;
      }
      ok := AcceptOneOf(DEVIATIONS);
      if ok && !stuck {
        ok := AcceptOneOf(["{"]);
      }
    }

    /** Records an error, after which there is no next statement. */
    method Error()
      modifies this`more, this`failed
      ensures !more && failed
    {
      more, failed := false, true;
    }

    /** One statement; afterwards there is another one unless the input has ended or an error was met. */
    method LexBegin()
      requires Starts() && more && !failed
      modifies this, tokens
      ensures Valid() && Advanced()
      ensures if old(pos) == |input| then Starts() && !more && !failed && pieces == old(pieces) && pos == old(pos)
              else Went(old(pieces), StatementAt(chars, input, old(pos)))
                   && Reported(StatementAt(chars, input, old(pos)))
    {
      hide Holds, Waiting, Held, OneOfAt, ArgsAt, ExtensionAt, FormsAt, FORMS, StatementAt, Behind, At, Taken;
      if pos >= |input| {
        more := false;
        return;
      }
      ghost var all := StatementAt(chars, input, pos);
      StatementStarts(chars, input, pos);
      var i := 0;
      while i < |FORMS|
        invariant i <= |FORMS| && Valid() && Idle() && FormsAt(chars, input, pos, FORMS[i..]) == all
      {
        FormsStep(chars, input, pos, FORMS, i);
        ghost var word := OneOfAt(chars, input, pos, FORMS[i].words);
        var found := AcceptOneOf(FORMS[i].words);
        if found {
          if !stuck {
            ghost var args := ArgsAt(chars, input, pos, FORMS[i].args);
            AcceptArgs(FORMS[i].args);
            WentBehind(old(pieces), word.pieces, args);
          }
          return;
        }
        i := i + 1;
      }
      FormsStep(chars, input, pos, FORMS, i);
      AcceptExtension();
    }

    /** An error has been reported exactly if this is one. */
    predicate Reported(l: Lexed)
      reads this
    {
      failed == l.Wrong? && more == !l.Wrong?
    }

    /** What follows the keyword of a statement. */
    method AcceptArgs(args: seq<Arg>)
      requires Starts() && more && !failed
      modifies this, tokens
      ensures Valid() && Advanced()
      ensures Went(old(pieces), ArgsAt(chars, input, old(pos), args)) && Reported(ArgsAt(chars, input, old(pos), args))
    {
      hide Holds, Waiting, Held, Behind, ArgAt, ArgsAt;
      ghost var all := ArgsAt(chars, input, pos, args);
      ArgsStep(chars, input, pos, args, 0);
      var i := 0;
      while i < |args|
        invariant i <= |args| && Starts() && Advanced() && more && !failed
        invariant Behind(pieces, ArgsAt(chars, input, pos, args[i..])) == Behind(old(pieces), all)
      {
        ghost var before, arg := pieces, ArgAt(chars, input, pos, args[i]);
        ArgsStep(chars, input, pos, args, i);
        var ok := AcceptArg(args[i]);
        if !ok || stuck {
          if !ok {
            Error();
          }
          WentSame(before, arg, old(pieces), all);
          return;
        }
        BehindBoth(before, arg.pieces, ArgsAt(chars, input, pos, args[i + 1..]));
        i := i + 1;
      }
      ArgsStep(chars, input, pos, args, i);
      WentSame(pieces, Read([], pos), old(pieces), all);
    }

    lemma WentSame(before: seq<Piece>, l: Lexed, first: seq<Piece>, all: Lexed)
      requires Went(before, l) || (pieces == before && l == Read([], pos) && !stuck && start == pos)
      requires Behind(before, l) == Behind(first, all)
      ensures Went(first, all) && l.Wrong? == all.Wrong?
    {
    }

    /** An extension statement, with any number of arguments. */
    method AcceptExtension()
      requires Starts() && more && !failed
      modifies this, tokens
      ensures Valid() && Advanced()
      ensures Went(old(pieces), ExtensionAt(chars, input, old(pos))) && Reported(ExtensionAt(chars, input, old(pos)))
    {
      hide Holds, Waiting, Held, Behind, IdentAt, OneOfAt, ArgAt, WordsAt;
      ghost var name, all := IdentAt(chars, input, pos, true), ExtensionAt(chars, input, pos);
      var ok := AcceptIdent(true);
      if !ok || stuck {
        if !ok {
          Error();
        }
        return;
      }
      BehindBoth(old(pieces), name.pieces, WordsAt(chars, input, pos));
      while true
        invariant Starts() && Advanced() && more && !failed
        invariant Behind(pieces, WordsAt(chars, input, pos)) == Behind(old(pieces), all)
        decreases |input| - pos
      {
        ghost var before, rest := pieces, WordsAt(chars, input, pos);
        WordsStep(chars, input, pos);
        if pos == |input| {
          // an empty string would be accepted again and again
          stuck := true;
          WentSame(before, rest, old(pieces), all);
          return;
        }
        ok := AcceptOneOf(ENDS);
        if ok {
          WentSame(before, rest, old(pieces), all);
          return;
        }
        ghost var word := ArgAt(chars, input, pos, NumberOrString);
        ok := AcceptArg(NumberOrString);
        if !ok || stuck {
          if !ok {
            Error();
          }
          WentSame(before, rest, old(pieces), all);
          return;
        }
        BehindBoth(before, word.pieces, WordsAt(chars, input, pos));
      }
    }

    // ---------- the parser's side ----------

    /** Between statements. */
    ghost predicate Ready()
      reads this, tokens
    {
      Valid() && !stuck && !failed && (more ==> start == pos)
    }

    /** What has been read and what will be. */
    ghost function All(): Lexed
      reads this
      requires pos <= |input|
    {
      if failed then Wrong(pieces)
      else if stuck then Hangs(pieces, crashed)
      else Behind(pieces, if more then TextFrom(chars, input, pos) else Read([], |input|))
    }

    /** No token was lost, and none will be. */
    ghost predicate Fitting()
      reads this
      requires pos <= |input|
    {
      !lost && (more && !stuck && !failed ==> FitsFrom(chars, input, pos, RING))
    }

    /** The next token; None at the end, if the lexer never returns, or after an error. */
    method NextToken() returns (t: Option<Token>)
      requires Ready()
      modifies this, tokens
      ensures Valid() && All() == old(All()) && Fitting() == old(Fitting())
      ensures old(pieces) <= pieces && (old(lost) ==> lost) && old(pos) <= pos && !(failed && stuck)
      ensures t.Some? ==> Ready() && (!lost ==> popped == old(popped) + 1 && t.value == pieces[old(popped)].token)
      ensures t.None? ==> popped == old(popped)
      ensures t.None? && !stuck && !failed ==> !more && InRing() == 0 && (!lost ==> popped == |pieces|)
      ensures t.Some? ==> old(pos) < pos || (old(more) && !more)
                          || (pos == old(pos) && more == old(more) && InRing() < old(InRing()))
      ensures InRing() + (if t.Some? then 1 else 0) + |old(pieces)| + (if lost && !old(lost) then 1 else 0)
           <= old(InRing()) + |pieces|
    {
      hide Holds, Waiting, Held, StatementAt, FORMS;
      while true
        invariant Ready() && All() == old(All()) && Fitting() == old(Fitting()) && popped == old(popped)
        invariant old(pos) <= pos && old(pieces) <= pieces && (old(lost) ==> lost)
                  && Kept(old(InRing()), |old(pieces)|, old(lost))
        invariant old(pos) < pos || (old(more) && !more)
                  || (pos == old(pos) && more == old(more) && InRing() == old(InRing()))
        decreases |input| - pos, more
      {
        RingFacts();
        if head != tail {
          var tok := PopToken();
          return Some(tok);
        }
        if !more {
          return None;
        }
        ghost var before, at := pieces, pos;
        LexBegin();
        if at < |input| {
          BehindBoth(before, StatementAt(chars, input, at).pieces, TextFrom(chars, input, pos));
        }
        if stuck || failed {
          return None;
        }
      }
    }

    lemma RingFacts()
      requires Valid()
      ensures !lost ==> (head == tail <==> popped == |pieces|)
      ensures InRing() == 0 <==> head == tail
    {
      hide Holds, Waiting, Held;
      HeldPush(head, tail);
      if !lost {
        PopHolds(tokens[..], head, tail, Waiting(pieces, popped));
      }
    }
  }

  lemma {:induction false} PrefixOfTokens(before: seq<Piece>, pieces: seq<Piece>, n: nat)
    requires before <= pieces && n <= |before|
    ensures TokensOf(pieces)[..n] == TokensOf(before)[..n]
    ensures n < |pieces| ==> TokensOf(pieces)[..n + 1] == TokensOf(pieces)[..n] + [pieces[n].token]
    ensures n == |pieces| ==> TokensOf(pieces)[..n] == TokensOf(pieces)
  {
  }

  /**
    All tokens of a text, one after the other. Its statements are read up to the first one that is wrong or never left;
    the tokens are delivered in order, and all of them exactly if no statement has more than the ring can hold.
  */
  method LexDump(input: string, chars: Chars) returns (all: seq<Token>, failed: bool, stuck: bool, crashed: bool)
    requires Proper(chars)
    ensures var l := Text(chars, input);
            && failed == l.Wrong? && stuck == l.Hangs? && (stuck ==> crashed == l.crash)
            && (Fits(chars, input, RING) ==> all <= TokensOf(l.pieces))
            && (l.Read? ==> (all == TokensOf(l.pieces) <==> Fits(chars, input, RING)))
    ensures Usual(chars) ==> forall sts | LexerPrinted.Printed(chars, input, sts) ::
              !failed && !stuck && (LexerPrinted.AllShort(sts, RING) ==> all == AllTokens(sts))
    ensures !failed && !stuck && Fits(chars, input, RING) ==>
              exists sts, lead, gaps :: LexerReading.Consists(chars, input, sts, lead, gaps) && all == AllTokens(sts)
  {
    hide Held, Holds, Waiting, TextFrom, FitsFrom, SkipFrom, TokensOf, Text, Fits, AllTokens, Usual;
    hide LexerPrinted.Printed, LexerPrinted.AllShort, LexerReading.Consists;
    all := [];
    var lexer := new Lexer(input, chars);
    ghost var text := Text(chars, input);
    if !lexer.stuck {
      while true
        invariant lexer.Ready() && fresh(lexer) && fresh(lexer.tokens) && lexer.input == input && lexer.chars == chars
        invariant lexer.All() == text && (lexer.Fitting() <==> Fits(chars, input, RING))
        invariant !lexer.lost ==> lexer.popped == |all| && all == TokensOf(lexer.pieces)[..lexer.popped]
        invariant |all| + lexer.InRing() + (if lexer.lost then 1 else 0) <= |lexer.pieces|
        decreases |input| - lexer.pos, lexer.more, lexer.InRing()
      {
        ghost var before := lexer.pieces;
        var t := lexer.NextToken();
        if t.None? {
          if !lexer.lost {
            PrefixOfTokens(before, lexer.pieces, |all|);
          }
          break;
        }
        if !lexer.lost {
          PrefixOfTokens(before, lexer.pieces, |all|);
        }
        all := all + [t.value];
      }
    }
    failed, stuck, crashed := lexer.failed, lexer.stuck, lexer.crashed;
    DumpIsStatements(input, chars);
  }

  lemma TokensAre(pieces: seq<Piece>, toks: seq<Token>)
    requires LexerTokens.Are(pieces, toks)
    ensures TokensOf(pieces) == toks
  {
  }

  /** Printed statements are read as their tokens, and whatever is read are statements with gaps. */
  lemma DumpIsStatements(input: string, chars: Chars)
    ensures var l := Text(chars, input);
            && (Usual(chars) ==> forall sts | LexerPrinted.Printed(chars, input, sts) ::
                  && l.Read? && TokensOf(l.pieces) == AllTokens(sts)
                  && (LexerPrinted.AllShort(sts, RING) ==> Fits(chars, input, RING)))
            && (l.Read? ==>
                  exists sts, lead, gaps ::
                    LexerReading.Consists(chars, input, sts, lead, gaps) && TokensOf(l.pieces) == AllTokens(sts))
  {
    hide Text, TokensOf, AllTokens, Usual, Fits, LexerPrinted.AllShort, LexerReading.Consists, LexerTokens.Are;
    hide LexerPrinted.IsPrint, LexerPrinted.AllGood;
    var l := Text(chars, input);
    if Usual(chars) {
      forall sts | LexerPrinted.Printed(chars, input, sts)
        ensures l.Read? && TokensOf(l.pieces) == AllTokens(sts)
        ensures LexerPrinted.AllShort(sts, RING) ==> Fits(chars, input, RING)
      {
        var lead, gaps :| LexerPrinted.IsPrint(chars, input, sts, lead, gaps);
        LexerPrinted.PrintedIsRead(chars, input, sts, lead, gaps, RING);
        TokensAre(l.pieces, AllTokens(sts));
      }
    }
    if l.Read? {
      var sts, lead, gaps := LexerReading.ReadIsPrinted(chars, input);
      TokensAre(l.pieces, AllTokens(sts));
    }
  }
}
