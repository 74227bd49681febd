/**
 Reading the registry option of a protobuf file: tokenizing, finding the option
 and parsing its aggregate; and the round trip from a printed option to its fields.
 */
module RegistryOptions {
  import opened Decimals
  import opened Results
  import opened RegistryTokens
  import opened AggregateParsers
  import opened AggregatePrinters

  // ---------------------------------------------------------------------------
  // What the tokenizer hands to the parser
  // ---------------------------------------------------------------------------

  /** A matched piece is punctuation when it looks like it, and numbers are numerals. */
  lemma MatchedIsApart(s: string, line: nat)
    requires Match(s).Some?
    ensures var (kind, n) := Match(s).value; MarksApart(Token(s[..n], line, kind))
  {
    var (kind, n) := Match(s).value;
    var text := s[..n];
    MatchIsSound(s);
    if kind.Number? {
      DigitsFromIsAll(text, DigitsStart(text));
    }
  }

  ghost predicate ApartAt(source: string, table: Table, offset: nat)
    requires Fits(table, source) && offset < |source|
  {
    table[offset].Some? ==>
      var (kind, n) := table[offset].value;
      MarksApart(Token(source[offset..offset + n], 1, kind))
  }

  lemma TableIsApart(source: string, offset: nat)
    requires offset < |source|
    ensures ApartAt(source, MatchTable(source), offset)
  {
    var rest := source[offset..];
    if Match(rest).Some? {
      var (kind, n) := Match(rest).value;
      assert rest[..n] == source[offset..offset + n];
      MatchedIsApart(rest, 1);
    }
  }

  lemma {:induction false} TokensAreApart(source: string, table: Table, offset: nat, line: nat)
    requires Fits(table, source) && offset <= |source| && Tokens(source, table, offset, line).Ok?
    requires forall i: nat | i < |source| :: ApartAt(source, table, i)
    ensures forall t | t in Tokens(source, table, offset, line).value :: MarksApart(t)
    decreases |source| - offset
  {
    if offset == |source| {
    } else {
      var (kind, n) := table[offset].value;
      var p := Piece(kind, source[offset..offset + n]);
      assert ApartAt(source, table, offset);
      TokensAreApart(source, table, offset + n, line + Newlines(p.text));
    }
  }

  method TokenizeSource(source: string) returns (r: Result<seq<Token>, LexError>)
    ensures r == TokensIn(source)
    ensures r.Ok? ==> forall t | t in r.value :: MarksApart(t)
  {
    r := Tokenize(source, MatchTable(source));
    if r.Ok? {
      forall i: nat | i < |source| ensures ApartAt(source, MatchTable(source), i) {
        TableIsApart(source, i);
      }
      TokensAreApart(source, MatchTable(source), 0, 1);
    }
  }

  // ---------------------------------------------------------------------------
  // The option
  // ---------------------------------------------------------------------------

  datatype OptionError = Lexing(lexing: LexError) | Parsing(parsing: ParseError) | Missing

  /** `option ( <option> ) = {` stands at `i`. */
  predicate OptionAt(ts: seq<Token>, i: nat, option: string) {
    && i + 6 <= |ts|
    && ts[i].value == "option" && ts[i + 1].value == "(" && ts[i + 2].value == option
    && ts[i + 3].value == ")" && ts[i + 4].value == "=" && ts[i + 5].value == "{"
  }

  predicate FirstOptionAt(ts: seq<Token>, i: nat, option: string) {
    OptionAt(ts, i, option) && forall k: nat | k < i :: !OptionAt(ts, k, option)
  }

  /** The fields of the first such option, up to its closing semicolon. */
  function OptionFields(ts: seq<Token>, i: nat): Result<Fields, ParseError> {
    var message := ParseMessage(Symbols(ts), i + 5);
    if message.Err? then Err(message.error)
    else
      var (fields, end) := message.value;
      if end >= |ts| then Err(UnexpectedEnd)
      else if !IsMark(ts[end].value, ';') then Err(Expected(';', end))
      else Ok(fields)
  }

  method FindOption(ts: seq<Token>, option: string) returns (at: Option<nat>)
    ensures at.None? ==> forall k :: !OptionAt(ts, k, option)
    ensures at.Some? ==> FirstOptionAt(ts, at.value, option)
  {
    var index := 0;
    while index + 5 < |ts|
      invariant forall k: nat | k < index :: !OptionAt(ts, k, option)
    {
      if OptionAt(ts, index, option) {
        return Some(index);
      }
      index := index + 1;
    }
    return None;
  }

  method ParseOptionAt(ts: seq<Token>, i: nat) returns (r: Result<Fields, ParseError>)
    requires forall t | t in ts :: MarksApart(t)
    ensures r == OptionFields(ts, i)
  {
    var parser := new AggregateParser(ts, i + 5);
    var result := parser.Message();
    if result.Err? {
      return result;
    }
    var semicolon := parser.Take(Some(';'));
    if semicolon.Err? {
      return Err(semicolon.error);
    }
    return result;
  }

  /** The fields of the first such option in the file, if the file tokenizes and has one. */
  method ParseRegistryOption(source: string, option: string)
    returns (r: Result<Fields, OptionError>, ghost at: Option<nat>)
    ensures TokensIn(source).Err? ==> r == Err(Lexing(TokensIn(source).error))
    ensures TokensIn(source).Ok? ==> OptionResult(TokensIn(source).value, option, r, at)
  {
    at := None;
    var tokenized := TokenizeSource(source);
    if tokenized.Err? {
      return Err(Lexing(tokenized.error)), at;
    }
    var found := FindOption(tokenized.value, option);
    at := found;
    if found.None? {
      return Err(Missing), at;
    }
    var parsed := ParseOptionAt(tokenized.value, found.value);
    return if parsed.Ok? then Ok(parsed.value) else Err(Parsing(parsed.error)), at;
  }

  ghost predicate OptionResult(ts: seq<Token>, option: string, r: Result<Fields, OptionError>, at: Option<nat>) {
    match at
    case None => r == Err(Missing) && forall k :: !OptionAt(ts, k, option)
    case Some(i) =>
      && FirstOptionAt(ts, i, option)
      && var fields := OptionFields(ts, i);
         r == if fields.Ok? then Ok(fields.value) else Err(Parsing(fields.error))
  }

  // ---------------------------------------------------------------------------
  // A printed option
  // ---------------------------------------------------------------------------

  function OptionWords(option: string, message: seq<Piece>): seq<Piece> {
    [Piece(Ident, "option"), Mark('('), Piece(Ident, option), Mark(')'), Mark('=')] + message + [Mark(';')]
  }

  /** The words at `i` begin the option. */
  predicate OptionBegins(words: seq<Piece>, i: nat, option: string) {
    && i + 6 <= |words|
    && words[i].text == "option" && words[i + 1].text == "(" && words[i + 2].text == option
    && words[i + 3].text == ")" && words[i + 4].text == "=" && words[i + 5].text == "{"
  }

  lemma OptionStands(words: seq<Piece>, before: seq<Piece>, option: string, message: seq<Piece>, after: seq<Piece>)
    requires message != [] && message[0] == Mark('{')
    requires words == before + OptionWords(option, message) + after
    ensures var i := |before|;
      && OptionBegins(words, i, option) && i + 6 + |message| <= |words|
      && words[i + 5..i + 5 + |message|] == message && words[i + 5 + |message|] == Mark(';')
  {
    var i, all := |before|, OptionWords(option, message);
    assert words[i..i + |all|] == all && all[5..5 + |message|] == message;
    assert forall k | i <= k < i + |all| :: words[k] == all[k - i];
    assert all[5] == message[0] && all[5 + |message|] == Mark(';');
  }

  /** The tokens are the words. */
  ghost predicate SameWords(ts: seq<Token>, words: seq<Piece>) {
    |ts| == |words| && forall k {:trigger SameWord(ts[k], words[k])} | 0 <= k < |ts| :: SameWord(ts[k], words[k])
  }

  predicate SameWord(t: Token, word: Piece) {
    t.value == word.text && t.kind == word.kind
  }

  lemma PieceInFront(p: Piece, line: nat, ts: seq<Token>, words: seq<Piece>)
    requires SameWords(ts, words)
    ensures SameWords(Produced(p, line) + ts, WordOf(p) + words)
  {
    var more, all := Produced(p, line) + ts, WordOf(p) + words;
    var n := |WordOf(p)|;
    forall k | 0 <= k < |more| ensures SameWord(more[k], all[k]) {
      assert k >= n ==> SameWord(ts[k - n], words[k - n]);
    }
  }

  lemma {:induction false} TokensAreWords(pieces: seq<Piece>, line: nat)
    ensures SameWords(TokensOf(pieces, line), WordsIn(pieces))
  {
    if pieces == [] {
    } else {
      var next := line + Newlines(pieces[0].text);
      TokensAreWords(pieces[1..], next);
      PieceInFront(pieces[0], line, TokensOf(pieces[1..], next), WordsIn(pieces[1..]));
    }
  }

  lemma {:induction false} WordsShowSymbols(words: seq<Piece>)
    requires AllPrintable(words)
    ensures |PieceSymbols(words)| == |words|
    ensures forall k | 0 <= k < |words| :: PieceSymbols(words)[k] == Classify(words[k].text, words[k].kind)
  {
    if words == [] {
    } else {
      assert words[0] in words && Printable(words[0]);
      WordsShowSymbols(words[1..]);
    }
  }

  /** What some of the words spell stands there among the symbols. */
  lemma WordsStand(ts: seq<Token>, words: seq<Piece>, i: nat, part: seq<Piece>, symbols: seq<Symbol>)
    requires SameWords(ts, words) && i + |part| <= |words| && words[i..i + |part|] == part && Spells(part, symbols)
    ensures |symbols| == |part| && SpelledAt(Symbols(ts), i, symbols)
  {
    WordsShowSymbols(part);
    forall k: nat | k < |part| ensures StandsAt(Symbols(ts), i, symbols, k) {
      assert words[i..i + |part|][k] == words[i + k] && SameWord(ts[i + k], words[i + k]);
    }
  }

  lemma OptionIsFound(ts: seq<Token>, words: seq<Piece>, before: nat, option: string)
    requires SameWords(ts, words) && OptionBegins(words, before, option)
    requires forall k | 0 <= k < before :: !OptionBegins(words, k, option)
    ensures FirstOptionAt(ts, before, option)
  {
    forall k: nat | k <= before ensures OptionAt(ts, k, option) <==> OptionBegins(words, k, option) {
      assert forall n | k <= n < k + 6 && n < |ts| :: SameWord(ts[n], words[n]);
    }
  }

  lemma MessageIsRead(ts: seq<Token>, words: seq<Piece>, i: nat, message: seq<Piece>, items: seq<Item>)
    requires SameWords(ts, words) && WellFormed(items) && Spells(message, SpellForm(Nested(items)))
    requires i + |message| <= |words| && words[i..i + |message|] == message
    ensures ParseMessage(Symbols(ts), i) == Ok((FieldsOf(items, map[]), i + |message|))
  {
    WordsStand(ts, words, i, message, SpellForm(Nested(items)));
    MessageParses(Symbols(ts), i, items);
  }

  /** The fields between the braces, if a semicolon follows. */
  lemma OptionIsRead(ts: seq<Token>, words: seq<Piece>, i: nat, message: seq<Piece>, items: seq<Item>)
    requires SameWords(ts, words) && WellFormed(items) && Spells(message, SpellForm(Nested(items)))
    requires i + 6 + |message| <= |words|
    requires words[i + 5..i + 5 + |message|] == message && words[i + 5 + |message|] == Mark(';')
    ensures OptionFields(ts, i) == Ok(FieldsOf(items, map[]))
  {
    MessageIsRead(ts, words, i + 5, message, items);
    var end := i + 5 + |message|;
    assert SameWord(ts[end], words[end]);
  }

  /**
   However the file is laid out, and whatever words stand around the option: if it does
   not begin before, it is read as the fields that were printed.
   */
  lemma OptionRoundTrip(pieces: seq<Piece>, before: seq<Piece>, option: string, entries: seq<Entry>, after: seq<Piece>)
    requires AllTaken(pieces)
             && WordsIn(pieces) == before + OptionWords(option, TreeWords(MessageTree(entries))) + after
    requires PrintableEntries(entries) && forall k | 0 <= k < |before| :: !OptionBegins(WordsIn(pieces), k, option)
    ensures TokensIn(Join(pieces)).Ok?
    ensures OptionResult(TokensIn(Join(pieces)).value, option, Ok(EntryFields(entries, map[])), Some(|before|))
  {
    CutsGiveTokens(pieces);
    TokensAreWords(pieces, 1);
    TreeSpells(MessageTree(entries));
    EntriesMean(entries, map[]);
    var message := TreeWords(MessageTree(entries));
    OptionIsParsed(TokensOf(pieces, 1), WordsIn(pieces), before, option, message, ItemsOf(entries), after);
  }

  lemma OptionIsParsed(ts: seq<Token>, words: seq<Piece>, before: seq<Piece>, option: string, message: seq<Piece>,
          items: seq<Item>, after: seq<Piece>)
    requires SameWords(ts, words) && words == before + OptionWords(option, message) + after
    requires message != [] && message[0] == Mark('{')
    requires WellFormed(items) && Spells(message, SpellForm(Nested(items)))
    requires forall k | 0 <= k < |before| :: !OptionBegins(words, k, option)
    ensures OptionResult(ts, option, Ok(FieldsOf(items, map[])), Some(|before|))
  {
    OptionStands(words, before, option, message, after);
    OptionIsFound(ts, words, |before|, option);
    OptionIsRead(ts, words, |before|, message, items);
  }

}
