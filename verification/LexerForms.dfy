/**
  Which form of statement the lexer finds for a keyword: forms are tried in order, and no keyword that is tried before
  can be taken for a later one.
*/
module LexerForms {
  import opened Wrappers
  import opened LexerText
  import opened LexerGrammar
  import opened LexerTokens

  // ---------- keywords that cannot be taken for each other ----------

  predicate DiffersAt(a: string, w: string, k: nat) {
    k < |a| && k < |w| && a[k] != w[k]
  }

  /** One of the first characters differs, or `a` goes on behind `w`. */
  predicate Differs(a: string, w: string) {
    DiffersAt(a, w, 0) || DiffersAt(a, w, 1) || DiffersAt(a, w, 2) || DiffersAt(a, w, 3)
    || DiffersAt(a, w, 5) || DiffersAt(a, w, 6) || (|w| < |a| && KeyChar(a[|w|]))
  }

  predicate AllDiffer(words: seq<Word>, w: string) {
    forall j :: 0 <= j < |words| ==> Differs(words[j], w)
  }

  /** Those before differ. */
  predicate FirstOf(words: seq<Word>, w: string, k: nat) {
    k < |words| && words[k] == w && forall j :: 0 <= j < k ==> Differs(words[j], w)
  }

  predicate NoneAt(s: string, i: nat, words: seq<Word>) {
    forall j :: 0 <= j < |words| ==> !At(s, i, words[j])
  }

  lemma NotAt(c: Chars, s: string, i: nat, p: Piece, w: Word, a: Word)
    requires StandsOne(c, s, i, p) && p.token == Kw(w) && !Mark(w[0]) && Differs(a, w)
    ensures !At(s, i, a)
  {
    hide StandsOne, At;
    CharBehind(c, s, i, p);
    AtChars(s, i, a);
    forall k | 0 <= k < |w| ensures i + k < |s| && s[i + k] == w[k] {
      CharAt(c, s, i, p, k);
    }
  }

  lemma AtChars(s: string, i: nat, a: string)
    ensures At(s, i, a) ==> i + |a| <= |s| && forall k :: 0 <= k < |a| ==> s[i + k] == a[k]
  {
    if At(s, i, a) {
      forall k | 0 <= k < |a| ensures s[i + k] == a[k] {
        assert s[i..i + |a|][k] == s[i + k];
      }
    }
  }

  lemma NoneOf(c: Chars, s: string, i: nat, p: Piece, w: Word, words: seq<Word>)
    requires StandsOne(c, s, i, p) && p.token == Kw(w) && !Mark(w[0]) && AllDiffer(words, w)
    ensures NoneAt(s, i, words)
  {
    hide StandsOne, Differs, At;
    forall j | 0 <= j < |words| ensures !At(s, i, words[j]) {
      NotAt(c, s, i, p, w, words[j]);
    }
  }

  // ---------- the forms ----------

  const PATHS: seq<Word> := ["deviation", "augment", "refine"]

  const BODIES: seq<Word> := ["input", "output"]

  const VALUES: seq<Word> := ["default", "value", "position", "fraction-digits"]

  const BOOLEANS: seq<Word> := ["mandatory", "config", "yin-element", "require-instance"]

  const COUNTS: seq<Word> := ["max-elements", "min-elements"]

  const STATES: seq<Word> := ["current", "obsolete", "deprecated"]

  const TRUTHS: seq<Word> := ["true", "false"]

  const ORDERS: seq<Word> := ["system", "user"]

  lemma EarlyForms()
    ensures |FORMS| == 12
    ensures FORMS[0] == Form(BLOCKS, [AnIdent, OpenBrace])
    ensures FORMS[1] == Form(PATHS, [AString, OpenBrace])
    ensures FORMS[2] == Form(BODIES, [OpenBrace])
    ensures FORMS[3] == Form(["deviate"], [Deviate])
    ensures FORMS[4] == Form(NAMED, [AnIdent, End])
  {
    hide BLOCKS, NAMED, LONG_TEXTS, SHORT_TEXTS;
  }

  lemma LateForms()
    ensures |FORMS| == 12
    ensures FORMS[5] == Form(["status"], [OneOf(STATES), End])
    ensures FORMS[6] == Form(VALUES, [NumberOrString, End])
    ensures FORMS[7] == Form(BOOLEANS, [OneOf(TRUTHS), End])
    ensures FORMS[8] == Form(LONG_TEXTS + SHORT_TEXTS, [AString, End])
  {
    hide BLOCKS, NAMED, LONG_TEXTS, SHORT_TEXTS;
  }

  lemma LastForms()
    ensures |FORMS| == 12
    ensures FORMS[9] == Form(["ordered-by"], [OneOf(ORDERS), End])
    ensures FORMS[10] == Form(COUNTS, [Integer, End])
    ensures FORMS[11] == Form(["}"], [])
  {
    hide BLOCKS, NAMED, LONG_TEXTS, SHORT_TEXTS;
  }

  /** The keyword is the first to be found, and its form is the one with index `k`. */
  ghost predicate Finds(w: string, k: nat) {
    && k < |FORMS| && (exists j :: FirstOf(FORMS[k].words, w, j))
    && forall q :: 0 <= q < k ==> AllDiffer(FORMS[q].words, w)
  }

  lemma {:induction false} SkipForms(c: Chars, s: string, i: nat, m: nat, k: nat)
    requires i <= |s| && m <= k <= |FORMS| && forall q :: m <= q < k ==> NoneAt(s, i, FORMS[q].words)
    ensures FormsAt(c, s, i, FORMS[m..]) == FormsAt(c, s, i, FORMS[k..])
    decreases k - m
  {
    hide FORMS, At, FormsAt, OneOfAt, ArgsAt;
    if m < k {
      FormsStep(c, s, i, FORMS, m);
      assert NoneAt(s, i, FORMS[m].words);
      OneOfMissed(c, s, i, FORMS[m].words);
      SkipForms(c, s, i, m + 1, k);
    }
  }

  /** A keyword and what is read behind it. */
  lemma FormRead(c: Chars, s: string, i: nat, p: Piece, w: Word, k: nat)
    requires StandsOne(c, s, i, p) && p.token == Kw(w) && !Mark(w[0]) && Finds(w, k)
    ensures i < Next(i, p) <= |s|
    ensures StatementAt(c, s, i) == Behind([p], ArgsAt(c, s, Next(i, p), FORMS[k].args))
  {
    hide FORMS, StandsOne, Next, At, StatementAt, FormsAt, OneOfAt, ArgsAt, AllDiffer, NoneAt, Differs, Behind;
    StandsFits(c, s, i, p);
    var j :| FirstOf(FORMS[k].words, w, j);
    forall q | 0 <= q < k ensures NoneAt(s, i, FORMS[q].words) {
      NoneOf(c, s, i, p, w, FORMS[q].words);
    }
    StatementStarts(c, s, i);
    SkipForms(c, s, i, 0, k);
    FormsStep(c, s, i, FORMS, k);
    forall q | 0 <= q < j ensures !At(s, i, FORMS[k].words[q]) {
      NotAt(c, s, i, p, w, FORMS[k].words[q]);
    }
    OneOfRead(c, s, i, FORMS[k].words, j, p);
  }

  // ---------- the keywords of forms differ ----------

  const MIDDLE_WORDS := ["augment", "refine", "deviation", "input", "output", "deviate"]

  const LATE_WORDS := [
    "default", "value", "position", "fraction-digits", "config", "mandatory", "yin-element", "require-instance",
    "status"]

  const LAST_WORDS := ["max-elements", "min-elements", "ordered-by"]

  predicate Middle(w: string) {
    AllDiffer(PATHS, w) && AllDiffer(BODIES, w) && AllDiffer(["deviate"], w)
  }

  predicate Late(w: string) {
    AllDiffer(["status"], w) && AllDiffer(VALUES, w) && AllDiffer(BOOLEANS, w)
  }

  lemma BlocksMiddle(w: string) requires w in MIDDLE_WORDS ensures AllDiffer(BLOCKS, w) {}
  lemma BlocksNamed(w: string)
    requires w in NAMED_WORDS
    ensures AllDiffer(BLOCKS, w)
  {
    hide BLOCKS, Differs;
    if w in ["type", "uses", "base", "identity", "feature", "extension"] {
      BlocksNamedFirst(w);
    } else {
      BlocksNamedSecond(w);
    }
  }

  lemma BlocksNamedFirst(w: string)
    requires w in ["type", "uses", "base", "identity", "feature", "extension"]
    ensures AllDiffer(BLOCKS, w)
  {
  }

  lemma BlocksNamedSecond(w: string)
    requires w in ["import", "include", "anydata", "anyxml", "enum", "bit", "not-supported"]
    ensures AllDiffer(BLOCKS, w)
  {
  }

  lemma BlocksLate(w: string) requires w in LATE_WORDS ensures AllDiffer(BLOCKS, w) {}
  lemma BlocksLong(w: string) requires w in LONG_TEXT_WORDS ensures AllDiffer(BLOCKS, w) {}
  lemma BlocksShort(w: string) requires w in SHORT_TEXT_WORDS ensures AllDiffer(BLOCKS, w) {}
  lemma BlocksLast(w: string) requires w in LAST_WORDS ensures AllDiffer(BLOCKS, w) {}
  lemma MiddleNamed(w: string) requires w in NAMED_WORDS ensures Middle(w) {}
  lemma MiddleLate(w: string) requires w in LATE_WORDS ensures Middle(w) {}
  lemma MiddleLong(w: string) requires w in LONG_TEXT_WORDS ensures Middle(w) {}
  lemma MiddleShort(w: string) requires w in SHORT_TEXT_WORDS ensures Middle(w) {}
  lemma MiddleLast(w: string) requires w in LAST_WORDS ensures Middle(w) {}
  lemma NamedLate(w: string) requires w in LATE_WORDS ensures AllDiffer(NAMED, w) {}
  lemma NamedLong(w: string) requires w in LONG_TEXT_WORDS ensures AllDiffer(NAMED, w) {}
  lemma NamedShort(w: string) requires w in SHORT_TEXT_WORDS ensures AllDiffer(NAMED, w) {}
  lemma NamedLast(w: string) requires w in LAST_WORDS ensures AllDiffer(NAMED, w) {}
  lemma ValuesLong(w: string) requires w in LONG_TEXT_WORDS ensures AllDiffer(VALUES, w) {}
  lemma BooleansLong(w: string) requires w in LONG_TEXT_WORDS ensures AllDiffer(BOOLEANS, w) {}
  lemma StatusLong(w: string) requires w in LONG_TEXT_WORDS ensures AllDiffer(["status"], w) {}
  lemma LateShort(w: string) requires w in SHORT_TEXT_WORDS ensures Late(w) {}
  lemma LateLast(w: string) requires w in LAST_WORDS ensures Late(w) {}
  lemma LongShort(w: string) requires w in SHORT_TEXT_WORDS ensures AllDiffer(LONG_TEXTS, w) {}
  lemma LongLast(w: string) requires w in LAST_WORDS ensures AllDiffer(LONG_TEXTS, w) {}
  lemma ShortLast(w: string) requires w in LAST_WORDS ensures AllDiffer(SHORT_TEXTS, w) {}
  lemma BlocksOrdered(k: nat) requires k < |BLOCKS| ensures FirstOf(BLOCKS, BLOCKS[k], k) {}
  lemma NamedOrdered(k: nat) requires k < |NAMED| ensures FirstOf(NAMED, NAMED[k], k) {}
  lemma LongOrdered(k: nat) requires k < |LONG_TEXTS| ensures FirstOf(LONG_TEXTS, LONG_TEXTS[k], k) {}
  lemma ShortOrdered(k: nat) requires k < |SHORT_TEXTS| ensures FirstOf(SHORT_TEXTS, SHORT_TEXTS[k], k) {}
  lemma PathsOrdered(k: nat) requires k < |PATHS| ensures FirstOf(PATHS, PATHS[k], k) {}
  lemma ValuesOrdered(k: nat) requires k < |VALUES| ensures FirstOf(VALUES, VALUES[k], k) {}
  lemma BooleansOrdered(k: nat) requires k < |BOOLEANS| ensures FirstOf(BOOLEANS, BOOLEANS[k], k) {}

  // ---------- the form of each keyword ----------

  predicate Lettered(w: string) {
    w != "" && KeyChar(w[0])
  }

  lemma BlocksIn(w: string) requires w in BLOCK_WORDS ensures w in BLOCKS && Lettered(w) {}
  lemma NamedIn(w: string) requires w in NAMED_WORDS ensures w in NAMED && Lettered(w) {}
  lemma LongIn(w: string) requires w in LONG_TEXT_WORDS ensures w in LONG_TEXTS && Lettered(w) {}
  lemma ShortIn(w: string) requires w in SHORT_TEXT_WORDS ensures w in SHORT_TEXTS && Lettered(w) {}
  lemma PathsIn(w: string) requires w in PATH_WORDS ensures w in PATHS && w in MIDDLE_WORDS && Lettered(w) {}
  lemma BodiesIn(w: string) requires w in BODY_WORDS ensures w in BODIES && w in MIDDLE_WORDS && Lettered(w) {}
  lemma ValuesIn(w: string) requires w in VALUE_WORDS ensures w in VALUES && w in LATE_WORDS && Lettered(w) {}
  lemma BooleansIn(w: string) requires w in BOOLEAN_WORDS ensures w in BOOLEANS && w in LATE_WORDS && Lettered(w) {}
  lemma CountsIn(w: string) requires w in COUNT_WORDS ensures w in COUNTS && w in LAST_WORDS && Lettered(w) {}

  lemma InGroups(w: string)
    requires w in KEYWORDS
    ensures w in BLOCK_WORDS || w in NAMED_WORDS || w in LONG_TEXT_WORDS || w in SHORT_TEXT_WORDS || w in VALUE_WORDS
            || w in PATH_WORDS || w in BOOLEAN_WORDS || w in COUNT_WORDS || w in BODY_WORDS
            || w == "deviate" || w == "status" || w == "ordered-by"
  {
    hide BLOCK_WORDS, NAMED_WORDS, LONG_TEXT_WORDS, SHORT_TEXT_WORDS, VALUE_WORDS, PATH_WORDS, BOOLEAN_WORDS;
    hide COUNT_WORDS, BODY_WORDS;
  }

  lemma WordsAreLettered(w: string)
    requires w in BLOCK_WORDS || w in NAMED_WORDS || w in LONG_TEXT_WORDS || w in SHORT_TEXT_WORDS || w in VALUE_WORDS
             || w in PATH_WORDS || w in BOOLEAN_WORDS || w in COUNT_WORDS || w in BODY_WORDS
             || w == "deviate" || w == "status" || w == "ordered-by"
    ensures Lettered(w)
  {
    hide BLOCK_WORDS, NAMED_WORDS, LONG_TEXT_WORDS, SHORT_TEXT_WORDS, VALUE_WORDS, PATH_WORDS, BOOLEAN_WORDS;
    hide COUNT_WORDS, BODY_WORDS;
    if w in BLOCK_WORDS {
      BlocksIn(w);
    } else if w in NAMED_WORDS {
      NamedIn(w);
    } else if w in LONG_TEXT_WORDS {
      LongIn(w);
    } else if w in SHORT_TEXT_WORDS {
      ShortIn(w);
    } else if w in VALUE_WORDS {
      ValuesIn(w);
    } else if w in PATH_WORDS {
      PathsIn(w);
    } else if w in BOOLEAN_WORDS {
      BooleansIn(w);
    } else if w in COUNT_WORDS {
      CountsIn(w);
    } else if w in BODY_WORDS {
      BodiesIn(w);
    }
  }

  lemma BlockFinds(w: string)
    requires w in BLOCK_WORDS
    ensures Finds(w, 0) && Lettered(w)
  {
    BlocksIn(w);
    EarlyForms();
    hide FORMS, BLOCKS, BLOCK_WORDS, FirstOf, AllDiffer, Lettered;
    var k :| 0 <= k < |BLOCKS| && BLOCKS[k] == w;
    BlocksOrdered(k);
  }

  lemma PathFinds(w: string)
    requires w in PATH_WORDS
    ensures Finds(w, 1) && Lettered(w)
  {
    PathsIn(w);
    EarlyForms();
    BlocksMiddle(w);
    hide FORMS, BLOCKS, PATHS, PATH_WORDS, MIDDLE_WORDS, FirstOf, AllDiffer, Lettered;
    var k :| 0 <= k < |PATHS| && PATHS[k] == w;
    PathsOrdered(k);
  }

  lemma BodyFinds(w: string)
    requires w in BODY_WORDS
    ensures Finds(w, 2) && Lettered(w)
  {
    BodiesIn(w);
    EarlyForms();
    BlocksMiddle(w);
    BodiesOrdered(w);
    hide FORMS, BLOCKS, PATHS, BODIES, BODY_WORDS, MIDDLE_WORDS, FirstOf, AllDiffer, Lettered;
  }

  lemma BodiesOrdered(w: string)
    requires w in BODY_WORDS
    ensures AllDiffer(PATHS, w) && exists k :: FirstOf(BODIES, w, k)
  {
    assert FirstOf(BODIES, w, if w == "input" then 0 else 1);
  }

  lemma SingleFirst(w: Word)
    ensures FirstOf([w], w, 0)
  {
  }

  lemma DeviateFinds()
    ensures Finds("deviate", 3) && Lettered("deviate")
  {
    EarlyForms();
    BlocksMiddle("deviate");
    SingleFirst("deviate");
    DeviateOrdered();
    hide FORMS, BLOCKS, PATHS, BODIES, MIDDLE_WORDS, FirstOf, AllDiffer;
  }

  lemma DeviateOrdered()
    ensures AllDiffer(PATHS, "deviate") && AllDiffer(BODIES, "deviate")
  {
  }

  lemma NamedFinds(w: string)
    requires w in NAMED_WORDS
    ensures Finds(w, 4) && Lettered(w)
  {
    NamedIn(w);
    EarlyForms();
    BlocksNamed(w);
    MiddleNamed(w);
    hide FORMS, BLOCKS, PATHS, BODIES, NAMED, NAMED_WORDS, FirstOf, AllDiffer, Lettered;
    var k :| 0 <= k < |NAMED| && NAMED[k] == w;
    NamedOrdered(k);
  }

  /** The keyword differs from those of the first five forms. */
  lemma LateFinds(w: string)
    requires w in LATE_WORDS || w in LONG_TEXT_WORDS || w in SHORT_TEXT_WORDS || w in LAST_WORDS
    ensures forall q :: 0 <= q < 5 ==> AllDiffer(FORMS[q].words, w)
  {
    EarlyForms();
    hide FORMS, BLOCKS, PATHS, BODIES, NAMED, AllDiffer, LATE_WORDS, LONG_TEXT_WORDS, SHORT_TEXT_WORDS, LAST_WORDS;
    if w in LATE_WORDS {
      BlocksLate(w);
      MiddleLate(w);
      NamedLate(w);
    } else if w in LONG_TEXT_WORDS {
      BlocksLong(w);
      MiddleLong(w);
      NamedLong(w);
    } else if w in SHORT_TEXT_WORDS {
      BlocksShort(w);
      MiddleShort(w);
      NamedShort(w);
    } else {
      BlocksLast(w);
      MiddleLast(w);
      NamedLast(w);
    }
  }

  lemma StatusFinds()
    ensures Finds("status", 5) && Lettered("status")
  {
    LateFinds("status");
    LateForms();
    SingleFirst("status");
    hide FORMS, FirstOf, AllDiffer, VALUES, BOOLEANS, LONG_TEXTS, SHORT_TEXTS;
  }

  lemma ValueFinds(w: string)
    requires w in VALUE_WORDS
    ensures Finds(w, 6) && Lettered(w)
  {
    ValuesIn(w);
    LateFinds(w);
    LateForms();
    assert AllDiffer(["status"], w);
    hide FORMS, FirstOf, AllDiffer, VALUES, BOOLEANS, LONG_TEXTS, SHORT_TEXTS, VALUE_WORDS, LATE_WORDS, Lettered;
    var k :| 0 <= k < |VALUES| && VALUES[k] == w;
    ValuesOrdered(k);
  }

  lemma BooleanFinds(w: string)
    requires w in BOOLEAN_WORDS
    ensures Finds(w, 7) && Lettered(w)
  {
    BooleansIn(w);
    LateFinds(w);
    LateForms();
    assert AllDiffer(["status"], w) && AllDiffer(VALUES, w);
    hide FORMS, FirstOf, AllDiffer, VALUES, BOOLEANS, LONG_TEXTS, SHORT_TEXTS, BOOLEAN_WORDS, LATE_WORDS, Lettered;
    var k :| 0 <= k < |BOOLEANS| && BOOLEANS[k] == w;
    BooleansOrdered(k);
  }

  lemma FirstBoth(a: seq<Word>, b: seq<Word>, w: string, k: nat)
    ensures FirstOf(a, w, k) ==> FirstOf(a + b, w, k)
    ensures AllDiffer(a, w) && FirstOf(b, w, k) ==> FirstOf(a + b, w, |a| + k)
    ensures AllDiffer(a, w) && AllDiffer(b, w) ==> AllDiffer(a + b, w)
  {
    hide Differs;
    if AllDiffer(a, w) && FirstOf(b, w, k) {
      forall j | 0 <= j < |a| + k ensures Differs((a + b)[j], w) {
        if j >= |a| {
          assert (a + b)[j] == b[j - |a|];
        }
      }
    }
  }

  lemma TextFinds(w: string)
    requires w in LONG_TEXT_WORDS || w in SHORT_TEXT_WORDS
    ensures Finds(w, 8) && Lettered(w)
  {
    LateFinds(w);
    LateForms();
    hide FORMS, FirstOf, AllDiffer, VALUES, BOOLEANS, LONG_TEXTS, SHORT_TEXTS, LONG_TEXT_WORDS, SHORT_TEXT_WORDS;
    hide Lettered;
    if w in LONG_TEXT_WORDS {
      LongIn(w);
      ValuesLong(w);
      BooleansLong(w);
      StatusLong(w);
      var k :| 0 <= k < |LONG_TEXTS| && LONG_TEXTS[k] == w;
      LongOrdered(k);
      FirstBoth(LONG_TEXTS, SHORT_TEXTS, w, k);
    } else {
      ShortIn(w);
      LateShort(w);
      LongShort(w);
      var k :| 0 <= k < |SHORT_TEXTS| && SHORT_TEXTS[k] == w;
      ShortOrdered(k);
      FirstBoth(LONG_TEXTS, SHORT_TEXTS, w, k);
    }
  }

  /** The keyword differs from those of the first nine forms. */
  lemma LastFinds(w: string)
    requires w in LAST_WORDS
    ensures forall q :: 0 <= q < 9 ==> AllDiffer(FORMS[q].words, w)
  {
    LateFinds(w);
    LateForms();
    LateLast(w);
    LongLast(w);
    ShortLast(w);
    hide FORMS, AllDiffer, VALUES, BOOLEANS, LONG_TEXTS, SHORT_TEXTS, LAST_WORDS;
    FirstBoth(LONG_TEXTS, SHORT_TEXTS, w, 0);
  }

  lemma OrderFinds()
    ensures Finds("ordered-by", 9) && Lettered("ordered-by")
  {
    LastFinds("ordered-by");
    LastForms();
    SingleFirst("ordered-by");
    hide FORMS, FirstOf, AllDiffer;
  }

  lemma CountFinds(w: string)
    requires w in COUNT_WORDS
    ensures Finds(w, 10) && Lettered(w)
  {
    CountsIn(w);
    LastFinds(w);
    LastForms();
    assert AllDiffer(["ordered-by"], w);
    assert FirstOf(COUNTS, w, if w == "max-elements" then 0 else 1);
    hide FORMS, FirstOf, AllDiffer, COUNTS, COUNT_WORDS, LAST_WORDS, Lettered;
  }
}
