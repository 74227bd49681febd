/** The JSON grammar of string literals, and that it is what the decoder reads. */
module JsonLaws {
  import opened Results
  import opened JsonStrings

  /** A hexadecimal digit and its value. */
  predicate IsHex(c: char, value: nat) {
    || ('0' <= c <= '9' && value == c as int - 48)
    || ('A' <= c <= 'F' && value == c as int - 55) || ('a' <= c <= 'f' && value == c as int - 87)
  }

  /** Four hexadecimal digits from `i` on, with these values. */
  ghost predicate HexAt(s: string, i: nat, a: nat, b: nat, c: nat, d: nat) {
    i + 4 <= |s| && IsHex(s[i], a) && IsHex(s[i + 1], b) && IsHex(s[i + 2], c) && IsHex(s[i + 3], d)
  }

  /** The code unit that the digits from `i` on are. */
  ghost predicate IsUnit(s: string, i: nat, unit: nat) {
    exists a: nat, b: nat, c: nat, d: nat ::
      HexAt(s, i, a, b, c, d) && unit == 4096 * a + 256 * b + 16 * c + d
  }

  /** What a letter behind a backslash stands for. */
  predicate IsShort(letter: char, c: char) {
    || (letter == '"' && c == '"') || (letter == '\\' && c == '\\') || (letter == '/' && c == '/')
    || (letter == 'b' && c as int == 8) || (letter == 't' && c as int == 9) || (letter == 'n' && c as int == 10)
    || (letter == 'f' && c as int == 12) || (letter == 'r' && c as int == 13)
  }

  /** An escape by one code unit, which is no surrogate. */
  ghost predicate UnitEscape(piece: string, c: char) {
    |piece| == 6 && "\\u" <= piece && IsUnit(piece, 2, c as int) && !(0xD800 <= c as int < 0xE000)
  }

  ghost predicate IsPair(piece: string, c: char, high: nat, low: nat) {
    && IsUnit(piece, 2, high) && IsUnit(piece, 8, low) && 0xD800 <= high < 0xDC00 <= low < 0xE000
    && c as int == 0x10000 + 0x400 * (high - 0xD800) + (low - 0xDC00)
  }

  /** An escape by two surrogates. */
  ghost predicate PairEscape(piece: string, c: char) {
    && |piece| == 12 && "\\u" <= piece && piece[6] == '\\' && piece[7] == 'u'
    && exists high: nat, low: nat :: IsPair(piece, c, high, low)
  }

  /** A stretch of a literal's body and the character that it stands for. */
  ghost predicate StandsFor(piece: string, c: char) {
    || (piece == [c] && c as int >= 0x20 && c != '"' && c != '\\')
    || (|piece| == 2 && piece[0] == '\\' && IsShort(piece[1], c))
    || UnitEscape(piece, c) || PairEscape(piece, c)
  }

  function Concat(pieces: seq<string>): string {
    if pieces == [] then "" else pieces[0] + Concat(pieces[1..])
  }

  /** The body is made of pieces that stand for the characters of the text, one after the other. */
  ghost predicate Spells(pieces: seq<string>, body: string, text: string) {
    && Concat(pieces) == body && |pieces| == |text|
    && forall k | 0 <= k < |pieces| :: StandsFor(pieces[k], text[k])
  }

  lemma HexExactly(c: char, value: nat)
    ensures HexValue(c) == Some(value) <==> IsHex(c, value)
  {
  }

  lemma SameHex(s: string, i: nat, t: string)
    requires i + 4 <= |s| && t == s[i..]
    ensures |t| >= 4 && t[0] == s[i] && t[1] == s[i + 1] && t[2] == s[i + 2] && t[3] == s[i + 3]
  {
  }

  lemma UnitIsThere(s: string, i: nat, a: nat, b: nat, c: nat, d: nat)
    requires HexAt(s, i, a, b, c, d)
    ensures CodeUnit(s[i..]) == Some(4096 * a + 256 * b + 16 * c + d)
  {
    HexExactly(s[i], a);
    HexExactly(s[i + 1], b);
    HexExactly(s[i + 2], c);
    HexExactly(s[i + 3], d);
    SameHex(s, i, s[i..]);
    NumberIs(s[i..], a, b, c, d);
  }

  lemma ThereIsUnit(s: string, i: nat)
    requires i <= |s| && CodeUnit(s[i..]).Some?
    ensures IsUnit(s, i, CodeUnit(s[i..]).value)
  {
    var t := s[i..];
    SameHex(s, i, t);
    DigitsAreThere(t);
    var a, b, c, d := HexValue(t[0]).value, HexValue(t[1]).value, HexValue(t[2]).value, HexValue(t[3]).value;
    HexExactly(t[0], a);
    HexExactly(t[1], b);
    HexExactly(t[2], c);
    HexExactly(t[3], d);
    NumberIs(t, a, b, c, d);
    assert HexAt(s, i, a, b, c, d);
  }

  lemma UnitIs(s: string, i: nat, unit: nat)
    requires IsUnit(s, i, unit)
    ensures i + 4 <= |s| && CodeUnit(s[i..]) == Some(unit)
  {
    var a: nat, b: nat, c: nat, d: nat :| HexAt(s, i, a, b, c, d) && unit == 4096 * a + 256 * b + 16 * c + d;
    UnitIsThere(s, i, a, b, c, d);
  }

  lemma DigitsAreThere(t: string)
    requires CodeUnit(t).Some?
    ensures HexValue(t[0]).Some? && HexValue(t[1]).Some? && HexValue(t[2]).Some? && HexValue(t[3]).Some?
  {
    assert HexNumber(t, 3).Some? && HexNumber(t, 2).Some? && HexNumber(t, 1).Some?;
  }

  lemma NumberIs(t: string, a: nat, b: nat, c: nat, d: nat)
    requires |t| >= 4 && HexValue(t[0]) == Some(a) && HexValue(t[1]) == Some(b)
    requires HexValue(t[2]) == Some(c) && HexValue(t[3]) == Some(d)
    ensures HexNumber(t, 4) == Some(4096 * a + 256 * b + 16 * c + d)
  {
    assert HexNumber(t, 1) == Some(a);
    assert HexNumber(t, 2) == Some(16 * a + b);
    assert HexNumber(t, 3) == Some(16 * (16 * a + b) + c);
  }

  // ---------------------------------------------------------------------------
  // One piece
  // ---------------------------------------------------------------------------

  /** A code unit depends on its digits alone. */
  lemma UnitIsLocal(s: string, n: nat, i: nat, unit: nat)
    requires i + 4 <= n <= |s|
    ensures IsUnit(s[..n], i, unit) <==> IsUnit(s, i, unit)
  {
    forall a: nat, b: nat, c: nat, d: nat ensures HexAt(s[..n], i, a, b, c, d) <==> HexAt(s, i, a, b, c, d) {
    }
  }

  lemma EscapeIsPiece(s: string)
    requires "\\u" <= s && UnicodeEscape(s).Some?
    ensures var (c, n) := UnicodeEscape(s).value; StandsFor(s[..n], c)
  {
    var (c, n) := UnicodeEscape(s).value;
    ThereIsUnit(s, 2);
    var unit := CodeUnit(s[2..]).value;
    if n == 6 {
      UnitIsLocal(s, 6, 2, unit);
      assert UnitEscape(s[..6], c);
    } else {
      ThereIsUnit(s, 8);
      var low := CodeUnit(s[8..]).value;
      UnitIsLocal(s, 12, 2, unit);
      UnitIsLocal(s, 12, 8, low);
      assert IsPair(s[..12], c, unit, low);
    }
  }

  lemma UnitPieceIsEscape(s: string, c: char)
    requires |s| >= 6 && UnitEscape(s[..6], c)
    ensures UnicodeEscape(s) == Some((c, 6))
  {
    UnitIsLocal(s, 6, 2, c as int);
    UnitIs(s, 2, c as int);
  }

  lemma PairIsEscape(s: string, c: char, high: nat, low: nat)
    requires |s| >= 12 && s[6] == '\\' && s[7] == 'u' && CodeUnit(s[2..]) == Some(high) && CodeUnit(s[8..]) == Some(low)
    requires 0xD800 <= high < 0xDC00 <= low < 0xE000
    requires c as int == 0x10000 + 0x400 * (high - 0xD800) + (low - 0xDC00)
    ensures UnicodeEscape(s) == Some((c, 12))
  {
  }

  lemma UnitBegins(s: string, n: nat, i: nat, unit: nat)
    requires n <= |s| && IsUnit(s[..n], i, unit) && i + 4 <= n
    ensures CodeUnit(s[i..]) == Some(unit)
  {
    UnitIsLocal(s, n, i, unit);
    UnitIs(s, i, unit);
  }

  lemma PairPieceIsEscape(s: string, c: char)
    requires |s| >= 12 && PairEscape(s[..12], c)
    ensures UnicodeEscape(s) == Some((c, 12))
  {
    var piece := s[..12];
    var high: nat, low: nat :| IsPair(piece, c, high, low);
    UnitBegins(s, 12, 2, high);
    UnitBegins(s, 12, 8, low);
    assert s[6] == piece[6] && s[7] == piece[7];
    PairIsEscape(s, c, high, low);
  }

  lemma FirstIsPiece(s: string)
    requires s != "" && FirstOf(s).Some?
    ensures var (c, n) := FirstOf(s).value; StandsFor(s[..n], c)
  {
    if "\\u" <= s {
      EscapeIsPiece(s);
    } else if s[0] == '\\' {
      assert s[..2][1] == s[1];
    }
  }

  lemma PieceIsFirst(s: string, n: nat, c: char)
    requires n <= |s| && StandsFor(s[..n], c)
    ensures s != "" && FirstOf(s) == Some((c, n))
  {
    var piece := s[..n];
    assert forall k | 0 <= k < n :: piece[k] == s[k];
    if UnitEscape(piece, c) {
      UnitPieceIsEscape(s, c);
    } else if PairEscape(piece, c) {
      PairPieceIsEscape(s, c);
    } else {
      assert piece[0] == s[0];
    }
  }

  // ---------------------------------------------------------------------------
  // Whole literals
  // ---------------------------------------------------------------------------

  lemma FirstIsSpelled(pieces: seq<string>, body: string, text: string)
    requires Spells(pieces, body, text) && pieces != []
    ensures var n := |pieces[0]|;
      n <= |body| && StandsFor(body[..n], text[0]) && Spells(pieces[1..], body[n..], text[1..])
  {
    var n := |pieces[0]|;
    assert body[..n] == pieces[0] && body[n..] == Concat(pieces[1..]);
  }

  lemma DecodeStep(body: string, n: nat, c: char, rest: string)
    requires body != "" && n <= |body| && FirstOf(body) == Some((c, n)) && DecodeBody(body[n..]) == Some(rest)
    ensures DecodeBody(body) == Some([c] + rest)
  {
  }

  lemma {:induction false} SpelledIsDecoded(pieces: seq<string>, body: string, text: string)
    requires Spells(pieces, body, text)
    ensures DecodeBody(body) == Some(text)
  {
    if pieces == [] {
    } else {
      var n := |pieces[0]|;
      FirstIsSpelled(pieces, body, text);
      PieceIsFirst(body, n, text[0]);
      SpelledIsDecoded(pieces[1..], body[n..], text[1..]);
      DecodeStep(body, n, text[0], text[1..]);
      assert text == [text[0]] + text[1..];
    }
  }

  lemma PieceInFront(body: string, n: nat, c: char, more: seq<string>, text: string)
    requires n <= |body| && StandsFor(body[..n], c) && Spells(more, body[n..], text)
    ensures Spells([body[..n]] + more, body, [c] + text)
  {
    var pieces := [body[..n]] + more;
    assert pieces[1..] == more && body == body[..n] + body[n..];
  }

  lemma {:induction false} DecodedIsSpelled(body: string) returns (pieces: seq<string>)
    requires DecodeBody(body).Some?
    ensures Spells(pieces, body, DecodeBody(body).value)
    decreases |body|
  {
    pieces := [];
    if body == "" {
    } else {
      var n := FirstOf(body).value.1;
      FirstIsPiece(body);
      var more := DecodedIsSpelled(body[n..]);
      pieces := [body[..n]] + more;
      PieceInFront(body, n, FirstOf(body).value.0, more, DecodeBody(body[n..]).value);
    }
  }

  /** Between two quotes these pieces spell the text. */
  ghost predicate IsLiteral(literal: string, body: string, pieces: seq<string>, text: string) {
    literal == "\"" + body + "\"" && Spells(pieces, body, text)
  }

  lemma LiteralIsDecoded(literal: string, body: string, pieces: seq<string>, text: string)
    requires IsLiteral(literal, body, pieces, text)
    ensures DecodeLiteral(literal) == Some(text)
  {
    assert literal[1..|literal| - 1] == body;
    SpelledIsDecoded(pieces, body, text);
  }

  lemma DecodedIsLiteral(literal: string) returns (pieces: seq<string>)
    requires DecodeLiteral(literal).Some?
    ensures IsLiteral(literal, literal[1..|literal| - 1], pieces, DecodeLiteral(literal).value)
  {
    var body := literal[1..|literal| - 1];
    pieces := DecodedIsSpelled(body);
    assert literal == "\"" + body + "\"";
  }

  /** A literal is decoded to a text exactly when what stands between its quotes spells the text. */
  lemma DecodesExactly(literal: string, text: string)
    ensures DecodeLiteral(literal) == Some(text) <==> exists body, pieces :: IsLiteral(literal, body, pieces, text)
  {
    if DecodeLiteral(literal) == Some(text) {
      var pieces := DecodedIsLiteral(literal);
    }
    forall body, pieces | IsLiteral(literal, body, pieces, text) ensures DecodeLiteral(literal) == Some(text) {
      LiteralIsDecoded(literal, body, pieces, text);
    }
  }
}
