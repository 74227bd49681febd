/** String literals of JSON, as they are written and decoded. */
module JsonStrings {
  import opened Results

  const SURROGATES: nat := 0xD800
  const LOW_SURROGATES: nat := 0xDC00
  const BEHIND_SURROGATES: nat := 0xE000

  function HexValue(c: char): (value: Option<nat>)
    ensures value.Some? ==> value.value < 16
  {
    if '0' <= c <= '9' then Some((c as int - '0' as int) as nat)
    else if 'a' <= c <= 'f' then Some((c as int - 'a' as int + 10) as nat)
    else if 'A' <= c <= 'F' then Some((c as int - 'A' as int + 10) as nat)
    else None
  }

  /** The number that the first `n` characters are in hexadecimal notation. */
  function HexNumber(s: string, n: nat): Option<nat> {
    if n == 0 then Some(0)
    else if n > |s| then None
    else
      var front, last := HexNumber(s, n - 1), HexValue(s[n - 1]);
      if front.Some? && last.Some? then Some(16 * front.value + last.value) else None
  }

  lemma {:induction false} HexNumberIsSmall(s: string, n: nat)
    requires HexNumber(s, n).Some? && n <= 4
    ensures n == 4 ==> HexNumber(s, n).value < 0x10000
    ensures n == 3 ==> HexNumber(s, n).value < 0x1000
    ensures n == 2 ==> HexNumber(s, n).value < 0x100
    ensures n == 1 ==> HexNumber(s, n).value < 0x10
  {
    if n > 0 {
      HexNumberIsSmall(s, n - 1);
    }
  }

  /** The code unit that an escape gives with the four characters behind its `u`. */
  function CodeUnit(s: string): (unit: Option<nat>)
    ensures unit.Some? ==> |s| >= 4 && unit.value < 0x10000
  {
    if HexNumber(s, 4).Some? then HexNumberIsSmall(s, 4); HexNumber(s, 4) else None
  }

  /** The character of an escape by code units, and how many characters the escape has. */
  function UnicodeEscape(s: string): (r: Option<(char, nat)>)
    requires |s| >= 2
    ensures r.Some? ==> 0 < r.value.1 <= |s|
  {
    var unit := CodeUnit(s[2..]);
    if unit.None? then None
    else if unit.value < SURROGATES || BEHIND_SURROGATES <= unit.value then Some((unit.value as char, 6))
    else
      var low := if |s| >= 8 && s[6] == '\\' && s[7] == 'u' then CodeUnit(s[8..]) else None;
      if unit.value < LOW_SURROGATES && low.Some? && LOW_SURROGATES <= low.value < BEHIND_SURROGATES then
        Some(((0x10000 + 0x400 * (unit.value - SURROGATES) + (low.value - LOW_SURROGATES)) as char, 12))
      else None
  }

  /** The character of the escape at the front, and how many characters the escape has. */
  function Unescape(s: string): (r: Option<(char, nat)>)
    requires s != ""
    ensures r.Some? ==> 0 < r.value.1 <= |s|
  {
    if |s| < 2 then None
    else
      match s[1]
      case '"' => Some(('"', 2))
      case '\\' => Some(('\\', 2))
      case '/' => Some(('/', 2))
      case 'b' => Some(('\U{08}', 2))
      case 'f' => Some(('\U{0C}', 2))
      case 'n' => Some(('\n', 2))
      case 'r' => Some(('\r', 2))
      case 't' => Some(('\t', 2))
      case 'u' => UnicodeEscape(s)
      case _ => None
  }

  /** The first character of what a body stands for, and how many characters are for it. */
  function FirstOf(s: string): (r: Option<(char, nat)>)
    requires s != ""
    ensures r.Some? ==> 0 < r.value.1 <= |s|
  {
    if s[0] == '\\' then Unescape(s)
    else if s[0] < ' ' || s[0] == '"' then None
    else Some((s[0], 1))
  }

  /** What stands between the quotes of a literal, decoded. */
  function DecodeBody(s: string): Option<string>
    decreases |s|
  {
    if s == "" then Some("")
    else
      var first := FirstOf(s);
      if first.None? then None
      else
        var rest := DecodeBody(s[first.value.1..]);
        if rest.None? then None else Some([first.value.0] + rest.value)
  }

  function DecodeLiteral(text: string): Option<string> {
    if |text| >= 2 && text[0] == '"' && text[|text| - 1] == '"' then DecodeBody(text[1..|text| - 1]) else None
  }

  // ---------------------------------------------------------------------------
  // Writing a text as a literal
  // ---------------------------------------------------------------------------

  function HexDigit(n: nat): char
    requires n < 16
  {
    "0123456789abcdef"[n]
  }

  /** What stands for a character; control characters without a short escape are written by their code. */
  function Escape(c: char): (escape: string)
    ensures escape != ""
  {
    match c
    case '"' => "\\\""
    case '\\' => "\\\\"
    case '\n' => "\\n"
    case '\r' => "\\r"
    case '\t' => "\\t"
    case _ => if c < ' ' then "\\u00" + [HexDigit(c as int / 16), HexDigit(c as int % 16)] else [c]
  }

  function EscapeAll(text: string): string {
    if text == "" then "" else Escape(text[0]) + EscapeAll(text[1..])
  }

  /** A text as a literal. */
  function Quote(text: string): string {
    "\"" + EscapeAll(text) + "\""
  }

  lemma HexDigitHasValue(n: nat)
    requires n < 16
    ensures HexValue(HexDigit(n)) == Some(n)
  {
  }

  lemma ControlIsDecoded(c: char, rest: string)
    requires c < ' '
    ensures UnicodeEscape("\\u00" + [HexDigit(c as int / 16), HexDigit(c as int % 16)] + rest) == Some((c, 6))
  {
    var high, low := c as int / 16, c as int % 16;
    var s := ("\\u00" + [HexDigit(high), HexDigit(low)] + rest)[2..];
    HexDigitHasValue(high);
    HexDigitHasValue(low);
    assert s[0] == '0' && s[1] == '0' && s[2] == HexDigit(high) && s[3] == HexDigit(low);
    assert HexNumber(s, 1) == Some(0);
    assert HexNumber(s, 2) == Some(0);
    assert HexNumber(s, 3) == Some(high);
    assert HexNumber(s, 4) == Some(16 * high + low);
  }

  lemma EscapeIsDecoded(c: char, rest: string)
    ensures FirstOf(Escape(c) + rest) == Some((c, |Escape(c)|))
  {
    if c < ' ' && c != '\n' && c != '\r' && c != '\t' {
      ControlIsDecoded(c, rest);
    }
  }

  lemma {:induction false} BodyIsDecoded(text: string)
    ensures DecodeBody(EscapeAll(text)) == Some(text)
  {
    if text == "" {
    } else {
      var escape, rest := Escape(text[0]), EscapeAll(text[1..]);
      EscapeIsDecoded(text[0], rest);
      BodyIsDecoded(text[1..]);
      assert (escape + rest)[|escape|..] == rest;
      assert text == [text[0]] + text[1..];
    }
  }

  /** Every text is what its literal is decoded to. */
  lemma QuoteRoundTrip(text: string)
    ensures DecodeLiteral(Quote(text)) == Some(text)
  {
    var literal := Quote(text);
    assert literal[1..|literal| - 1] == EscapeAll(text);
    BodyIsDecoded(text);
  }
}
