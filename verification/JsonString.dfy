/** The writer of JSON strings (nodeutil/json_wtr_str.go), byte by byte. */
module JsonString {
  import opened Wrappers

  type Byte = x: int | 0 <= x < 256
  type Bytes = seq<Byte>

  const QUOTE: Byte := 0x22
  const BACKSLASH: Byte := 0x5C

  // ---------- UTF-8 (RFC 3629) ----------

  predicate Tail(b: Byte) {
    0x80 <= b <= 0xBF
  }

  /** How many bytes the character at the start of `s` takes; 0 if no character starts there. */
  function CharSize(s: Bytes): (n: nat)
    requires s != []
    ensures n <= |s| && n <= 4
  {
    var b := s[0];
    if b < 0x80 then 1
    else if 0xC2 <= b <= 0xDF && |s| > 1 && Tail(s[1]) then 2
    else if 0xE0 <= b <= 0xEF && |s| > 2 && Tail(s[1]) && Tail(s[2])
            && (b == 0xE0 ==> 0xA0 <= s[1]) && (b == 0xED ==> s[1] <= 0x9F) then 3
    else if 0xF0 <= b <= 0xF4 && |s| > 3 && Tail(s[1]) && Tail(s[2]) && Tail(s[3])
            && (b == 0xF0 ==> 0x90 <= s[1]) && (b == 0xF4 ==> s[1] <= 0x8F) then 4
    else 0
  }

  predicate ValidUtf8(s: Bytes) {
    s == [] || (CharSize(s) > 0 && ValidUtf8(s[CharSize(s)..]))
  }

  /** U+FFFD, which stands for a byte that is part of no character. */
  const REPLACEMENT: Bytes := [0xEF, 0xBF, 0xBD]

  function Sanitized(s: Bytes): Bytes {
    if s == [] then []
    else if CharSize(s) == 0 then REPLACEMENT + Sanitized(s[1..])
    else s[..CharSize(s)] + Sanitized(s[CharSize(s)..])
  }

  lemma {:induction false} SanitizedValid(s: Bytes)
    requires ValidUtf8(s)
    ensures Sanitized(s) == s
  {
    if s != [] {
      SanitizedValid(s[CharSize(s)..]);
    }
  }

  /** A Unicode scalar value: a code point that is no surrogate. */
  predicate Scalar(c: nat) {
    c < 0xD800 || 0xE000 <= c < 0x110000
  }

  /** The encoding of a code point: section 3 of RFC 3629. */
  function Utf8(c: nat): Bytes
    requires Scalar(c)
  {
    if c < 0x80 then [c]
    else if c < 0x800 then [0xC0 + c / 64, 0x80 + c % 64]
    else if c < 0x10000 then [0xE0 + c / 4096, 0x80 + (c / 64) % 64, 0x80 + c % 64]
    else [0xF0 + c / 262144, 0x80 + (c / 4096) % 64, 0x80 + (c / 64) % 64, 0x80 + c % 64]
  }

  function Encoded(cs: seq<nat>): Bytes
    requires forall i :: 0 <= i < |cs| ==> Scalar(cs[i])
  {
    if cs == [] then [] else Utf8(cs[0]) + Encoded(cs[1..])
  }

  /** `s` begins with the encoding of `c`. */
  ghost predicate Begins(s: Bytes, c: nat) {
    Scalar(c) && Utf8(c) <= s
  }

  /** Where an encoded character starts, its size is found. */
  lemma SizeOfEncoded(s: Bytes, c: nat)
    requires Begins(s, c)
    ensures CharSize(s) == |Utf8(c)| && s[..CharSize(s)] == Utf8(c)
  {
    var u := Utf8(c);
    assert s[0] == u[0];
    assert |u| > 1 ==> s[1] == u[1];
    assert |u| > 2 ==> s[2] == u[2];
    assert |u| > 3 ==> s[3] == u[3];
    if 0x800 <= c < 0x10000 {
      ThreeBytes(c);
    } else if 0x10000 <= c {
      FourBytes(c);
    }
  }

  lemma ThreeBytes(c: nat)
    requires 0x800 <= c < 0x10000 && Scalar(c)
    ensures c / 4096 == 0 ==> (c / 64) % 64 >= 32
    ensures c / 4096 == 13 ==> (c / 64) % 64 < 32
    ensures c / 4096 < 16
  {
  }

  lemma FourBytes(c: nat)
    requires 0x10000 <= c < 0x110000
    ensures c / 262144 == 0 ==> (c / 4096) % 64 >= 16
    ensures c / 262144 == 4 ==> (c / 4096) % 64 < 16
    ensures c / 262144 <= 4
  {
  }

  /** Six bits more. */
  lemma SixBits(q: nat, r: nat)
    requires r < 64
    ensures (q * 64 + r) / 64 == q && (q * 64 + r) % 64 == r
  {
  }

  lemma Shifts(c: nat)
    ensures c / 4096 == c / 64 / 64 && c / 262144 == c / 64 / 64 / 64
  {
  }

  /** And where one is found, it is the encoding of a character. */
  lemma SizeIsEncoded(s: Bytes) returns (c: nat)
    requires s != [] && CharSize(s) > 0
    ensures Begins(s, c) && CharSize(s) == |Utf8(c)| && s[..CharSize(s)] == Utf8(c)
  {
    var n := CharSize(s);
    var w: int := s[0];
    if n == 1 {
      c := w;
    } else if n == 2 {
      c := TwoRead(w, s[1]);
    } else if n == 3 {
      c := ThreeRead(w, s[1], s[2]);
    } else {
      c := FourRead(w, s[1], s[2], s[3]);
    }
    assert s[..n] == Utf8(c);
  }

  lemma TwoRead(w: int, z: int) returns (c: nat)
    requires 0xC2 <= w <= 0xDF && 0x80 <= z <= 0xBF
    ensures 0x80 <= c < 0x800 && Utf8(c) == [w, z]
  {
    c := (w - 0xC0) * 64 + (z - 0x80);
    SixBits(w - 0xC0, z - 0x80);
  }

  lemma ThreeRead(w: int, y: int, z: int) returns (c: nat)
    requires 0xE0 <= w <= 0xEF && 0x80 <= y <= 0xBF && 0x80 <= z <= 0xBF
    requires (w == 0xE0 ==> 0xA0 <= y) && (w == 0xED ==> y <= 0x9F)
    ensures 0x800 <= c < 0x10000 && Scalar(c) && Utf8(c) == [w, y, z]
  {
    var q := (w - 0xE0) * 64 + (y - 0x80);
    c := q * 64 + (z - 0x80);
    SixBits(w - 0xE0, y - 0x80);
    SixBits(q, z - 0x80);
    Shifts(c);
  }

  lemma FourRead(w: int, x: int, y: int, z: int) returns (c: nat)
    requires 0xF0 <= w <= 0xF4 && 0x80 <= x <= 0xBF && 0x80 <= y <= 0xBF && 0x80 <= z <= 0xBF
    requires (w == 0xF0 ==> 0x90 <= x) && (w == 0xF4 ==> x <= 0x8F)
    ensures 0x10000 <= c < 0x110000 && Utf8(c) == [w, x, y, z]
  {
    var q := (w - 0xF0) * 64 + (x - 0x80);
    var r := q * 64 + (y - 0x80);
    c := r * 64 + (z - 0x80);
    SixBits(w - 0xF0, x - 0x80);
    SixBits(q, y - 0x80);
    SixBits(r, z - 0x80);
    Shifts(c);
  }

  /** Strings are valid exactly if they are encodings of characters. */
  lemma {:induction false} EncodedIsValid(cs: seq<nat>)
    requires forall i :: 0 <= i < |cs| ==> Scalar(cs[i])
    ensures ValidUtf8(Encoded(cs))
  {
    if cs != [] {
      var s := Encoded(cs);
      assert Utf8(cs[0]) <= s && s[|Utf8(cs[0])|..] == Encoded(cs[1..]);
      SizeOfEncoded(s, cs[0]);
      EncodedIsValid(cs[1..]);
    }
  }

  lemma {:induction false} ValidIsEncoded(s: Bytes) returns (cs: seq<nat>)
    requires ValidUtf8(s)
    ensures (forall i :: 0 <= i < |cs| ==> Scalar(cs[i])) && s == Encoded(cs)
  {
    cs := [];
    if s != [] {
      var c := SizeIsEncoded(s);
      var more := ValidIsEncoded(s[CharSize(s)..]);
      cs := [c] + more;
      assert cs[1..] == more;
    }
  }

  /** Characters stay, and a byte at which none starts is replaced. */
  lemma SanitizedIs(s: Bytes)
    ensures s == [] ==> Sanitized(s) == []
    ensures forall c :: Begins(s, c) ==> Sanitized(s) == Utf8(c) + Sanitized(s[|Utf8(c)|..])
    ensures s != [] && (forall c :: !Begins(s, c)) ==> Sanitized(s) == REPLACEMENT + Sanitized(s[1..])
  {
    forall c | Begins(s, c) ensures Sanitized(s) == Utf8(c) + Sanitized(s[|Utf8(c)|..]) {
      SizeOfEncoded(s, c);
    }
    if s != [] && CharSize(s) > 0 {
      var c := SizeIsEncoded(s);
    }
  }

  // ---------- reading: section 7 of RFC 8259 ----------

  function HexValue(b: Byte): (r: Option<nat>)
    ensures r.Some? ==> r.value < 16
  {
    if 0x30 <= b <= 0x39 then Some(b - 0x30)
    else if 0x61 <= b <= 0x66 then Some(b - 0x61 + 10)
    else if 0x41 <= b <= 0x46 then Some(b - 0x41 + 10)
    else None
  }

  function HexValues(s: Bytes): (r: Option<nat>)
    requires |s| == 4
    ensures r.Some? ==> r.value < 0x10000
  {
    var a, b, c, d := HexValue(s[0]), HexValue(s[1]), HexValue(s[2]), HexValue(s[3]);
    if a.Some? && b.Some? && c.Some? && d.Some? then
      Some(a.value * 4096 + b.value * 256 + c.value * 16 + d.value)
    else None
  }

  function Before(a: Bytes, r: Option<Bytes>): Option<Bytes> {
    if r.Some? then Some(a + r.value) else None
  }

  /** What is between the quotes of a JSON string, read; None if that is not allowed there. Surrogates are not read. */
  function Unescape(s: Bytes): Option<Bytes>
    decreases |s|
  {
    if s == [] then Some([])
    else if s[0] < 0x20 || s[0] == QUOTE then None
    else if s[0] != BACKSLASH then Before([s[0]], Unescape(s[1..]))
    else if |s| < 2 then None
    else if s[1] == 0x75 then
      if |s| < 6 || HexValues(s[2..6]).None? then None
      else
        var c := HexValues(s[2..6]).value;
        if 0xD800 <= c < 0xE000 then None else Before(Utf8(c), Unescape(s[6..]))
    else if Short(s[1]).Some? then Before([Short(s[1]).value], Unescape(s[2..]))
    else None
  }

  /** The escapes of one letter. */
  function Short(b: Byte): Option<Byte> {
    match b
    case 0x22 => Some(0x22)
    case 0x5C => Some(0x5C)
    case 0x2F => Some(0x2F)
    case 0x62 => Some(0x08)
    case 0x66 => Some(0x0C)
    case 0x6E => Some(0x0A)
    case 0x72 => Some(0x0D)
    case 0x74 => Some(0x09)
    case _ => None
  }

  // ---------- writing ----------

  /** The tables safeSet and htmlSafeSet. */
  predicate Safe(b: Byte, escapeHTML: bool)
    requires b < 0x80
  {
    b >= 0x20 && b != QUOTE && b != BACKSLASH && (escapeHTML ==> b != 0x26 && b != 0x3C && b != 0x3E)
  }

  function Hex(n: nat): Byte
    requires n < 16
  {
    if n < 10 then 0x30 + n else 0x61 + n - 10
  }

  function EscapedAscii(b: Byte): Bytes
    requires b < 0x80
  {
    match b
    case 0x5C => [BACKSLASH, b]
    case 0x22 => [BACKSLASH, b]
    case 0x0A => [BACKSLASH, 0x6E]
    case 0x0D => [BACKSLASH, 0x72]
    case 0x09 => [BACKSLASH, 0x74]
    case _ => [BACKSLASH, 0x75, 0x30, 0x30, Hex(b / 16), Hex(b % 16)]
  }

  /** U+2028 and U+2029. */
  predicate LineEnd(s: Bytes) {
    |s| > 2 && s[0] == 0xE2 && s[1] == 0x80 && (s[2] == 0xA8 || s[2] == 0xA9)
  }

  function EscapedLineEnd(b: Byte): Bytes {
    [BACKSLASH, 0x75, 0x32, 0x30, 0x32, Hex(b % 16)]
  }

  const ESCAPED_REPLACEMENT: Bytes := [BACKSLASH, 0x75, 0x66, 0x66, 0x66, 0x64]

  /** How the start of `s` is written, and how much of `s` that is. */
  function Piece(s: Bytes, escapeHTML: bool): (r: (Bytes, nat))
    requires s != []
    ensures 0 < r.1 <= |s|
  {
    if s[0] < 0x80 then (if Safe(s[0], escapeHTML) then [s[0]] else EscapedAscii(s[0]), 1)
    else if CharSize(s) == 0 then (ESCAPED_REPLACEMENT, 1)
    else if LineEnd(s) then (EscapedLineEnd(s[2]), 3)
    else (s[..CharSize(s)], CharSize(s))
  }

  function Escape(s: Bytes, escapeHTML: bool): Bytes {
    if s == [] then [] else
      var p := Piece(s, escapeHTML);
      p.0 + Escape(s[p.1..], escapeHTML)
  }

  // ---------- what is written is read back ----------

  lemma UnescapeRaw(b: Byte, rest: Bytes)
    requires b >= 0x20 && b != QUOTE && b != BACKSLASH
    ensures Unescape([b] + rest) == Before([b], Unescape(rest))
  {
    assert ([b] + rest)[1..] == rest;
  }

  lemma {:induction false} UnescapeHigh(a: Bytes, rest: Bytes)
    requires forall i :: 0 <= i < |a| ==> a[i] >= 0x80
    ensures Unescape(a + rest) == Before(a, Unescape(rest))
  {
    if a == [] {
      assert a + rest == rest;
      assert Unescape(rest).Some? ==> [] + Unescape(rest).value == Unescape(rest).value;
    } else {
      assert a + rest == [a[0]] + (a[1..] + rest);
      UnescapeRaw(a[0], a[1..] + rest);
      UnescapeHigh(a[1..], rest);
      assert Unescape(rest).Some? ==> [a[0]] + (a[1..] + Unescape(rest).value) == a + Unescape(rest).value;
    }
  }

  lemma UnescapeShort(b: Byte, rest: Bytes)
    requires b != 0x75 && Short(b).Some?
    ensures Unescape([BACKSLASH, b] + rest) == Before([Short(b).value], Unescape(rest))
  {
    assert ([BACKSLASH, b] + rest)[2..] == rest;
  }

  lemma UnescapeUnicode(a: Byte, b: Byte, c: Byte, d: Byte, rest: Bytes)
    requires HexValues([a, b, c, d]).Some?
    requires !(0xD800 <= HexValues([a, b, c, d]).value < 0xE000)
    ensures Unescape([BACKSLASH, 0x75, a, b, c, d] + rest)
            == Before(Utf8(HexValues([a, b, c, d]).value), Unescape(rest))
  {
    var s := [BACKSLASH, 0x75, a, b, c, d] + rest;
    assert s[2..6] == [a, b, c, d] && s[6..] == rest;
  }

  lemma HexRight(n: nat)
    requires n < 16
    ensures HexValue(Hex(n)) == Some(n)
  {
  }

  lemma UnescapeAscii(b: Byte, rest: Bytes)
    requires b < 0x80
    ensures Unescape(EscapedAscii(b) + rest) == Before([b], Unescape(rest))
  {
    match b
    case 0x5C => UnescapeShort(0x5C, rest);
    case 0x22 => UnescapeShort(0x22, rest);
    case 0x0A => UnescapeShort(0x6E, rest);
    case 0x0D => UnescapeShort(0x72, rest);
    case 0x09 => UnescapeShort(0x74, rest);
    case _ =>
      HexRight(b / 16);
      HexRight(b % 16);
      assert HexValues([0x30, 0x30, Hex(b / 16), Hex(b % 16)]) == Some(b / 16 * 16 + b % 16);
      UnescapeUnicode(0x30, 0x30, Hex(b / 16), Hex(b % 16), rest);
  }

  /** What a piece stands for. */
  function Meaning(s: Bytes): (r: Bytes)
    requires s != []
  {
    if CharSize(s) == 0 then REPLACEMENT else s[..CharSize(s)]
  }

  lemma UnescapePiece(s: Bytes, escapeHTML: bool, rest: Bytes)
    requires s != []
    ensures Unescape(Piece(s, escapeHTML).0 + rest) == Before(Meaning(s), Unescape(rest))
    ensures Sanitized(s) == Meaning(s) + Sanitized(s[Piece(s, escapeHTML).1..])
  {
    if s[0] < 0x80 {
      assert s[..1] == [s[0]];
      if Safe(s[0], escapeHTML) {
        UnescapeRaw(s[0], rest);
      } else {
        UnescapeAscii(s[0], rest);
      }
    } else if CharSize(s) == 0 {
      assert HexValues([0x66, 0x66, 0x66, 0x64]) == Some(0xFFFD);
      UnescapeUnicode(0x66, 0x66, 0x66, 0x64, rest);
      assert Utf8(0xFFFD) == REPLACEMENT;
    } else if LineEnd(s) {
      LineEndRight(s, rest);
    } else {
      UnescapeHigh(s[..CharSize(s)], rest);
    }
  }

  lemma LineEndRight(s: Bytes, rest: Bytes)
    requires LineEnd(s)
    ensures CharSize(s) == 3
    ensures Unescape(EscapedLineEnd(s[2]) + rest) == Before(s[..3], Unescape(rest))
  {
    var k: nat := s[2] % 16;
    assert k == 8 || k == 9;
    HexRight(k);
    assert HexValues([0x32, 0x30, 0x32, Hex(k)]) == Some(0x2020 + k);
    UnescapeUnicode(0x32, 0x30, 0x32, Hex(k), rest);
    assert Utf8(0x2020 + k) == s[..3];
  }

  /** Reading what was written gives the string back, with U+FFFD for bytes that are no character. */
  lemma {:induction false} UnescapeEscape(s: Bytes, escapeHTML: bool)
    ensures Unescape(Escape(s, escapeHTML)) == Some(Sanitized(s))
  {
    if s != [] {
      var p := Piece(s, escapeHTML);
      UnescapeEscape(s[p.1..], escapeHTML);
      UnescapePiece(s, escapeHTML, Escape(s[p.1..], escapeHTML));
    }
  }

  /** In particular every string of characters comes back as it was. */
  lemma RoundTrip(cs: seq<nat>, escapeHTML: bool)
    requires forall i :: 0 <= i < |cs| ==> Scalar(cs[i])
    ensures Unescape(Escape(Encoded(cs), escapeHTML)) == Some(Encoded(cs))
  {
    EncodedIsValid(cs);
    UnescapeEscape(Encoded(cs), escapeHTML);
    SanitizedValid(Encoded(cs));
  }

  lemma EscapeStep(s: Bytes, escapeHTML: bool)
    requires s != []
    ensures Escape(s, escapeHTML) == Piece(s, escapeHTML).0 + Escape(s[Piece(s, escapeHTML).1..], escapeHTML)
    ensures Escape([], escapeHTML) == []
  {
  }

  /** What is written for a character depends on its bytes alone. */
  lemma SamePiece(u: Bytes, s: Bytes, escapeHTML: bool)
    requires u != [] && u <= s && CharSize(u) == |u| == CharSize(s)
    ensures Piece(s, escapeHTML) == Piece(u, escapeHTML) && Piece(u, escapeHTML).1 == |u|
  {
    assert s[0] == u[0] && s[..|u|] == u == u[..|u|];
    SameLineEnd(u, s);
    OneByte(u);
    hide CharSize, EscapedAscii, EscapedLineEnd, LineEnd, Safe;
  }

  lemma OneByte(u: Bytes)
    requires u != [] && CharSize(u) == |u|
    ensures u[0] < 0x80 ==> |u| == 1
  {
  }

  /** Each character is written by itself. */
  lemma EscapeFirst(c: nat, rest: Bytes, escapeHTML: bool)
    requires Scalar(c)
    ensures Escape(Utf8(c) + rest, escapeHTML) == Escape(Utf8(c), escapeHTML) + Escape(rest, escapeHTML)
  {
    var u := Utf8(c);
    assert u != [];
    hide Utf8, CharSize, Piece, Escape;
    var s := u + rest;
    SizeOfEncoded(s, c);
    SizeOfEncoded(u, c);
    SamePiece(u, s, escapeHTML);
    EscapeStep(s, escapeHTML);
    EscapeStep(u, escapeHTML);
    assert s[|u|..] == rest && u[|u|..] == [];
    assert Piece(u, escapeHTML).0 + [] == Piece(u, escapeHTML).0;
  }

  lemma SameLineEnd(u: Bytes, s: Bytes)
    requires u != [] && u <= s && CharSize(u) == |u| == CharSize(s)
    ensures LineEnd(s) <==> LineEnd(u)
    ensures LineEnd(s) ==> |u| == 3 && s[2] == u[2]
  {
  }

  /** How each of the first 128 characters is written. */
  lemma AsciiIsWritten(b: Byte, escapeHTML: bool)
    requires b < 0x80
    ensures Escape([b], escapeHTML) ==
            if b == 0x22 || b == 0x5C then [0x5C, b]
            else if b == 0x0A then [0x5C, 0x6E]
            else if b == 0x0D then [0x5C, 0x72]
            else if b == 0x09 then [0x5C, 0x74]
            else if b < 0x20 || (escapeHTML && (b == 0x26 || b == 0x3C || b == 0x3E)) then
              [0x5C, 0x75, 0x30, 0x30, 0x30 + b / 16, if b % 16 < 10 then 0x30 + b % 16 else 0x57 + b % 16]
            else [b]
  {
    assert [b][1..] == [];
    assert Escape([], escapeHTML) == [];
    assert Piece([b], escapeHTML).0 + [] == Piece([b], escapeHTML).0;
  }

  /** All other characters are written as they are, but for U+2028 and U+2029. */
  lemma OthersAreWritten(c: nat, escapeHTML: bool)
    requires Scalar(c) && c >= 0x80
    ensures Escape(Utf8(c), escapeHTML) ==
            if c == 0x2028 then [0x5C, 0x75, 0x32, 0x30, 0x32, 0x38]
            else if c == 0x2029 then [0x5C, 0x75, 0x32, 0x30, 0x32, 0x39]
            else Utf8(c)
  {
    var s := Utf8(c);
    SizeOfEncoded(s, c);
    assert s[|s|..] == [] && s[..|s|] == s && Escape([], escapeHTML) == [];
    assert Piece(s, escapeHTML).0 + [] == Piece(s, escapeHTML).0;
    assert LineEnd(s) <==> c == 0x2028 || c == 0x2029;
  }

  /** No control character, and if HTML is to be escaped none of `&`, `<` and `>`. */
  predicate Clean(b: Byte, escapeHTML: bool) {
    b >= 0x20 && (escapeHTML ==> b != 0x26 && b != 0x3C && b != 0x3E)
  }

  lemma {:induction false} EscapeIsClean(s: Bytes, escapeHTML: bool)
    ensures forall i :: 0 <= i < |Escape(s, escapeHTML)| ==> Clean(Escape(s, escapeHTML)[i], escapeHTML)
  {
    if s != [] {
      PieceIsClean(s, escapeHTML);
      EscapeIsClean(s[Piece(s, escapeHTML).1..], escapeHTML);
    }
  }

  lemma PieceIsClean(s: Bytes, escapeHTML: bool)
    requires s != []
    ensures forall i :: 0 <= i < |Piece(s, escapeHTML).0| ==> Clean(Piece(s, escapeHTML).0[i], escapeHTML)
  {
    if s[0] < 0x80 && !Safe(s[0], escapeHTML) {
      assert forall i :: 0 <= i < |EscapedAscii(s[0])| ==> Clean(EscapedAscii(s[0])[i], escapeHTML);
    }
  }

  // ---------- the loop ----------

  /** `out` holds everything before `start`, which is `i` or less; what is between them is to be copied. */
  ghost predicate Window(base: Bytes, out: Bytes, s: Bytes, start: nat, i: nat, escapeHTML: bool) {
    start <= i <= |s| && out + s[start..i] + Escape(s[i..], escapeHTML) == base + Escape(s, escapeHTML)
  }

  lemma Opened(base: Bytes, s: Bytes, escapeHTML: bool)
    ensures Window(base, base, s, 0, 0, escapeHTML)
  {
    assert s[0..] == s && s[0..0] == [];
    assert base + s[0..0] == base;
  }

  lemma Closed(base: Bytes, out: Bytes, s: Bytes, start: nat, escapeHTML: bool)
    requires Window(base, out, s, start, |s|, escapeHTML)
    ensures out + s[start..] == base + Escape(s, escapeHTML)
    ensures start == |s| ==> out == base + Escape(s, escapeHTML)
  {
    assert s[|s|..] == [] && s[start..|s|] == s[start..];
    assert out + s[start..] + [] == out + s[start..];
    assert start == |s| ==> out + s[start..] == out;
  }

  lemma Associate(a: Bytes, b: Bytes, c: Bytes, d: Bytes)
    ensures a + b + (c + d) == a + (b + c) + d == a + b + c + d
  {
  }

  /** The window grows by a piece that is written as it is. */
  lemma Kept(base: Bytes, out: Bytes, s: Bytes, start: nat, i: nat, n: nat, escapeHTML: bool)
    requires Window(base, out, s, start, i, escapeHTML) && i < |s|
    requires Piece(s[i..], escapeHTML).1 == n && Piece(s[i..], escapeHTML).0 == s[i..i + n]
    ensures Window(base, out, s, start, i + n, escapeHTML)
  {
    var p := Piece(s[i..], escapeHTML);
    assert s[i..][n..] == s[i + n..];
    Associate(out, s[start..i], p.0, Escape(s[i + n..], escapeHTML));
    assert s[start..i] + p.0 == s[start..i + n];
  }

  /** The window is copied, and an escaped piece written behind it. */
  lemma Written(base: Bytes, out: Bytes, s: Bytes, start: nat, i: nat, piece: Bytes, n: nat, escapeHTML: bool)
    requires Window(base, out, s, start, i, escapeHTML) && i < |s|
    requires Piece(s[i..], escapeHTML) == (piece, n)
    ensures Window(base, out + s[start..i] + piece, s, i + n, i + n, escapeHTML)
  {
    assert s[i..][n..] == s[i + n..] && s[i + n..i + n] == [];
    Associate(out, s[start..i], piece, Escape(s[i + n..], escapeHTML));
    assert out + s[start..i] + piece + [] == out + s[start..i] + piece;
  }

  class Buffer {
    var bytes: Bytes

    constructor ()
      ensures bytes == []
    {
      bytes := [];
    }

    method WriteString(s: Bytes, escapeHTML: bool)
      modifies this
      ensures bytes == old(bytes) + [QUOTE] + Escape(s, escapeHTML) + [QUOTE]
    {
      bytes := bytes + [QUOTE];
      ghost var base := bytes;
      var start: nat, i: nat := 0, 0;
      Opened(base, s, escapeHTML);
      hide *;
      while i < |s|
        invariant start <= i <= |s| && Window(base, bytes, s, start, i, escapeHTML)
      {
        if s[i] < 0x80 {
          start, i := Ascii(base, s, start, i, escapeHTML);
        } else {
          start, i := NonAscii(base, s, start, i, escapeHTML);
        }
      }
      Closed(base, bytes, s, start, escapeHTML);
      if start < |s| {
        bytes := bytes + s[start..];
      }
      bytes := bytes + [QUOTE];
    }

    /** The part of the loop for bytes below utf8.RuneSelf. */
    method Ascii(ghost base: Bytes, s: Bytes, start: nat, i: nat, escapeHTML: bool) returns (start': nat, i': nat)
      requires i < |s| && s[i] < 0x80 && Window(base, bytes, s, start, i, escapeHTML)
      modifies this
      ensures i < i' <= |s| && start' <= i' && Window(base, bytes, s, start', i', escapeHTML)
    {
      assert start <= i;
      PieceIs(s, i, escapeHTML);
      hide Escape, Window, Piece, CharSize, LineEnd, EscapedAscii;
      if Safe(s[i], escapeHTML) {
        Kept(base, bytes, s, start, i, 1, escapeHTML);
        return start, i + 1;
      }
      Written(base, bytes, s, start, i, EscapedAscii(s[i]), 1, escapeHTML);
      Flush(s, start, i);
      WriteEscaped(s[i]);
      return i + 1, i + 1;
    }

    /** The rest of the loop. */
    method NonAscii(ghost base: Bytes, s: Bytes, start: nat, i: nat, escapeHTML: bool) returns (start': nat, i': nat)
      requires i < |s| && s[i] >= 0x80 && Window(base, bytes, s, start, i, escapeHTML)
      modifies this
      ensures i < i' <= |s| && start' <= i' && Window(base, bytes, s, start', i', escapeHTML)
    {
      assert start <= i;
      PieceIs(s, i, escapeHTML);
      hide Escape, Window, Piece, CharSize, LineEnd, EscapedAscii, EscapedLineEnd;
      var size := CharSize(s[i..]);
      if size == 0 {
        Written(base, bytes, s, start, i, ESCAPED_REPLACEMENT, 1, escapeHTML);
        Flush(s, start, i);
        bytes := bytes + ESCAPED_REPLACEMENT;
        return i + 1, i + 1;
      }
      if LineEnd(s[i..]) {
        var b := s[i + 2];
        Written(base, bytes, s, start, i, EscapedLineEnd(b), 3, escapeHTML);
        Flush(s, start, i);
        WriteLineEnd(b);
        return i + size, i + size;
      }
      Kept(base, bytes, s, start, i, size, escapeHTML);
      return start, i + size;
    }

    method Flush(s: Bytes, start: nat, i: nat)
      requires start <= i <= |s|
      modifies this
      ensures bytes == old(bytes) + s[start..i]
    {
      if start < i {
        bytes := bytes + s[start..i];
      }
    }

    method WriteLineEnd(b: Byte)
      requires b == 0xA8 || b == 0xA9
      modifies this
      ensures bytes == old(bytes) + EscapedLineEnd(b)
    {
      bytes := bytes + [BACKSLASH, 0x75, 0x32, 0x30, 0x32];
      bytes := bytes + [Hex(b % 16)];
    }

    method WriteEscaped(b: Byte)
      requires b < 0x80
      modifies this
      ensures bytes == old(bytes) + EscapedAscii(b)
    {
      bytes := bytes + [BACKSLASH];
      match b
      case 0x5C => bytes := bytes + [b];
      case 0x22 => bytes := bytes + [b];
      case 0x0A => bytes := bytes + [0x6E];
      case 0x0D => bytes := bytes + [0x72];
      case 0x09 => bytes := bytes + [0x74];
      case _ =>
        bytes := bytes + [0x75, 0x30, 0x30];
        bytes := bytes + [Hex(b / 16)];
        bytes := bytes + [Hex(b % 16)];
    }
  }

  lemma PieceIs(s: Bytes, i: nat, escapeHTML: bool)
    requires i < |s|
    ensures var p, b := Piece(s[i..], escapeHTML), s[i];
            && (b < 0x80 ==> p == (if Safe(b, escapeHTML) then s[i..i + 1] else EscapedAscii(b), 1))
            && (b >= 0x80 && CharSize(s[i..]) == 0 ==> p == (ESCAPED_REPLACEMENT, 1))
            && (LineEnd(s[i..]) ==>
                  i + 2 < |s| && (s[i + 2] == 0xA8 || s[i + 2] == 0xA9) && CharSize(s[i..]) == 3
                  && p == (EscapedLineEnd(s[i + 2]), 3))
            && (b >= 0x80 && CharSize(s[i..]) > 0 && !LineEnd(s[i..]) ==>
                  i + CharSize(s[i..]) <= |s| && p == (s[i..i + CharSize(s[i..])], CharSize(s[i..])))
  {
    assert s[i..][..CharSize(s[i..])] == s[i..i + CharSize(s[i..])];
    assert s[i..i + 1] == [s[i]];
  }
}
