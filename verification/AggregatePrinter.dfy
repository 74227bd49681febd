/**
 Printing an aggregate message as text, and reading the text back.

 A message is printed as words; its text is any layout of those words that the
 token pattern takes apart again, such as one with a blank behind each.  The
 tokenizer and the parser give back the fields of the message: integers are written
 in decimal, flags as names, and texts as literals with escapes.
 */
module AggregatePrinters {
  import opened Decimals
  import opened JsonStrings
  import opened Results
  import opened RegistryTokens
  import opened AggregateParsers

  // ---------------------------------------------------------------------------
  // Messages to be printed
  // ---------------------------------------------------------------------------

  /** A value: a name stands for itself, a text is printed as a literal. */
  datatype Tree =
    | IntTree(n: int)
    | FlagTree(b: bool)
    | NameTree(name: string)
    | TextTree(text: string)
    | MessageTree(entries: seq<Entry>)

  /** A field with its value, and the commas and semicolons behind it. */
  datatype Entry = Entry(field: string, value: Tree, separators: string)

  predicate IsName(name: string) {
    name != "" && IsWordStart(name[0]) && forall k | 0 <= k < |name| :: IsWordPart(name[k])
  }

  predicate AreSeparators(text: string) {
    forall k | 0 <= k < |text| :: text[k] == ',' || text[k] == ';'
  }

  /** Names are names; any integer and any text can be printed. */
  predicate PrintableTree(tree: Tree) {
    match tree
    case IntTree(_) => true
    case FlagTree(_) => true
    case NameTree(name) => IsName(name) && name != "true" && name != "false"
    case TextTree(_) => true
    case MessageTree(entries) => PrintableEntries(entries)
  }

  predicate PrintableEntries(entries: seq<Entry>) {
    entries != [] ==>
      && IsName(entries[0].field) && '.' !in entries[0].field && AreSeparators(entries[0].separators)
      && PrintableTree(entries[0].value) && PrintableEntries(entries[1..])
  }

  function TreeValue(tree: Tree): Value {
    match tree
    case IntTree(n) => Value.Number(n)
    case FlagTree(b) => Flag(b)
    case NameTree(name) => Text(name)
    case TextTree(text) => Text(text)
    case MessageTree(entries) => Message(EntryFields(entries, map[]))
  }

  /** The values of each field, in order, added to those in `fields`. */
  function EntryFields(entries: seq<Entry>, fields: Fields): Fields {
    if entries == [] then fields
    else EntryFields(entries[1..], Add(fields, entries[0].field, TreeValue(entries[0].value)))
  }

  // ---------------------------------------------------------------------------
  // Their words
  // ---------------------------------------------------------------------------

  function Mark(c: char): Piece {
    Piece(Punct, [c])
  }

  function TreeWords(tree: Tree): seq<Piece> {
    match tree
    case IntTree(n) => [Piece(Kind.Number, IntText(n))]
    case FlagTree(b) => [Piece(Ident, if b then "true" else "false")]
    case NameTree(name) => [Piece(Ident, name)]
    case TextTree(text) => [Piece(Literal, Quote(text))]
    case MessageTree(entries) => [Mark('{')] + (EntryWords(entries) + [Mark('}')])
  }

  function SeparatorWords(separators: string): seq<Piece> {
    if separators == "" then [] else [Mark(separators[0])] + SeparatorWords(separators[1..])
  }

  function EntryWords(entries: seq<Entry>): seq<Piece> {
    if entries == [] then []
    else
      [Piece(Ident, entries[0].field), Mark(':')]
      + (TreeWords(entries[0].value) + SeparatorWords(entries[0].separators))
      + EntryWords(entries[1..])
  }

  function SeparatorsOf(separators: string): seq<Symbol> {
    if separators == "" then [] else [Separator([separators[0]])] + SeparatorsOf(separators[1..])
  }

  /** The message in the grammar of the parser. */
  function FormOf(tree: Tree): Form {
    match tree
    case IntTree(n) => Leaf(Scalar(Some(Value.Number(n))))
    case FlagTree(b) => Leaf(Named(if b then "true" else "false", false, Flag(b)))
    case NameTree(name) => Leaf(Named(name, '.' in name, Text(name)))
    case TextTree(text) => Leaf(Scalar(Some(Text(text))))
    case MessageTree(entries) => Nested(ItemsOf(entries))
  }

  function ItemsOf(entries: seq<Entry>): seq<Item> {
    if entries == [] then []
    else
      var e := entries[0];
      [Item(Named(e.field, false, NameValue(e.field)), FormOf(e.value), SeparatorsOf(e.separators))]
      + ItemsOf(entries[1..])
  }

  lemma {:induction false} SeparatorsAreOf(separators: string)
    ensures forall s | s in SeparatorsOf(separators) :: s.Separator?
  {
    if separators == "" {
    } else {
      SeparatorsAreOf(separators[1..]);
    }
  }

  /** What the grammar makes of a printed message is what it stands for. */
  lemma {:induction false} TreeMeans(tree: Tree)
    requires PrintableTree(tree)
    ensures WellFormedForm(FormOf(tree)) && Meaning(FormOf(tree)) == TreeValue(tree)
    decreases tree
  {
    if tree.MessageTree? {
      EntriesMean(tree.entries, map[]);
    }
  }

  lemma {:induction false} EntriesMean(entries: seq<Entry>, fields: Fields)
    requires PrintableEntries(entries)
    ensures WellFormed(ItemsOf(entries)) && FieldsOf(ItemsOf(entries), fields) == EntryFields(entries, fields)
    decreases entries
  {
    if entries == [] {
    } else {
      var e, items := entries[0], ItemsOf(entries);
      SeparatorsAreOf(e.separators);
      TreeMeans(e.value);
      EntriesMean(entries[1..], Add(fields, e.field, TreeValue(e.value)));
      assert items[1..] == ItemsOf(entries[1..]);
    }
  }

  // ---------------------------------------------------------------------------
  // Any layout of a message is read as that message
  // ---------------------------------------------------------------------------

  function PieceSymbol(p: Piece): seq<Symbol> {
    if IsTrivia(p.kind) then [] else [Classify(p.text, p.kind)]
  }

  /** What the parser sees in the pieces of a text. */
  function PieceSymbols(pieces: seq<Piece>): seq<Symbol> {
    if pieces == [] then []
    else PieceSymbol(pieces[0]) + PieceSymbols(pieces[1..])
  }

  lemma SymbolsConcat(a: seq<Token>, b: seq<Token>)
    ensures Symbols(a + b) == Symbols(a) + Symbols(b)
  {
    var all := a + b;
    forall k | 0 <= k < |all| ensures Symbols(all)[k] == (Symbols(a) + Symbols(b))[k] {
      assert all[k] == if k < |a| then a[k] else b[k - |a|];
    }
  }

  lemma ProducedSymbols(p: Piece, line: nat)
    ensures Symbols(Produced(p, line)) == PieceSymbol(p)
  {
  }

  lemma OnePieceShows(p: Piece, line: nat, more: seq<Token>, symbols: seq<Symbol>)
    requires Symbols(more) == symbols
    ensures Symbols(Produced(p, line) + more) == PieceSymbol(p) + symbols
  {
    ProducedSymbols(p, line);
    SymbolsConcat(Produced(p, line), more);
  }

  lemma {:induction false} TokensShowPieces(pieces: seq<Piece>, line: nat)
    ensures Symbols(TokensOf(pieces, line)) == PieceSymbols(pieces)
  {
    if pieces == [] {
    } else {
      var p, next := pieces[0], line + Newlines(pieces[0].text);
      TokensShowPieces(pieces[1..], next);
      OnePieceShows(p, line, TokensOf(pieces[1..], next), PieceSymbols(pieces[1..]));
    }
  }

  lemma CutsGiveTokens(pieces: seq<Piece>)
    requires AllTaken(pieces)
    ensures TokensIn(Join(pieces)) == Ok(TokensOf(pieces, 1))
  {
    var source, table := Join(pieces), MatchTable(Join(pieces));
    assert source[0..] == source;
    MatchTableIs(source);
    CutsAreLexed(source, table, 0, pieces);
    ReadingGivesTokens(source, table, 0, pieces, 1);
  }

  /** A text whose pieces show the spelling of a message tokenizes, and parses to its fields. */
  lemma SpelledIsParsed(pieces: seq<Piece>, items: seq<Item>)
    requires AllTaken(pieces) && WellFormed(items)
    requires PieceSymbols(pieces) == SpellForm(Nested(items))
    ensures TokensIn(Join(pieces)).Ok?
    ensures var ts := TokensIn(Join(pieces)).value;
      ParseMessage(Symbols(ts), 0) == Ok((FieldsOf(items, map[]), |ts|))
  {
    CutsGiveTokens(pieces);
    TokensShowPieces(pieces, 1);
    WholeParses(Symbols(TokensOf(pieces, 1)), items);
  }

  lemma WholeParses(ss: seq<Symbol>, items: seq<Item>)
    requires WellFormed(items) && ss == SpellForm(Nested(items))
    ensures ParseMessage(ss, 0) == Ok((FieldsOf(items, map[]), |ss|))
  {
    forall k: nat | k < |ss| ensures StandsAt(ss, 0, ss, k) {
    }
    MessageParses(ss, 0, items);
  }

  // ---------------------------------------------------------------------------
  // Printing words with one blank behind each
  // ---------------------------------------------------------------------------

  const BLANK: Piece := Piece(Space, " ")

  function Layout(words: seq<Piece>): seq<Piece> {
    if words == [] then [] else [words[0], BLANK] + Layout(words[1..])
  }

  /** A word is a token by itself, when a blank follows. */
  ghost predicate Printable(word: Piece) {
    !IsTrivia(word.kind) && Matches(word.text + " ", |word.text|, word.kind)
  }

  lemma {:induction false} LiteralBodyIsLocal(s: string, t: string, i: nat, j: nat)
    requires i <= j <= |s| && j <= |t| && LiteralBody(s, i, j)
    requires forall k | 0 <= k < j :: s[k] == t[k]
    ensures LiteralBody(t, i, j)
    decreases j - i
  {
    if i == j {
    } else {
      LiteralBodyIsLocal(s, t, if s[i] == '\\' then i + 2 else i + 1, j);
    }
  }

  /** Whether a token matches depends on its text and the character behind it. */
  lemma TokenMatchIsLocal(s: string, t: string, n: nat, kind: Kind)
    requires !IsTrivia(kind) && Matches(s, n, kind) && n < |s| && n < |t|
    requires forall k | 0 <= k <= n :: s[k] == t[k]
    ensures Matches(t, n, kind)
  {
    if kind.Literal? {
      LiteralBodyIsLocal(s, t, 1, n - 1);
    }
  }

  lemma {:induction false} LayoutIsTaken(words: seq<Piece>)
    requires forall w | w in words :: Printable(w)
    ensures AllTaken(Layout(words))
  {
    if words == [] {
    } else {
      assert words[0] in words;
      LayoutIsTaken(words[1..]);
      NotBlankFirst(words[1..]);
      WordInFront(words[0], Layout(words[1..]));
    }
  }

  lemma WordInFront(word: Piece, more: seq<Piece>)
    requires Printable(word) && AllTaken(more) && (Join(more) != "" ==> !IsSpace(Join(more)[0]))
    ensures AllTaken([word, BLANK] + more)
  {
    BlankInFront(more);
    var behind := [BLANK] + more;
    var text := word.text + Join(behind);
    TokenMatchIsLocal(word.text + " ", text, |word.text|, word.kind);
    MatchIsComplete(text, |word.text|, word.kind);
    TakenInFront(word, behind);
    assert [word] + behind == [word, BLANK] + more;
  }

  lemma BlankInFront(more: seq<Piece>)
    requires AllTaken(more) && (Join(more) != "" ==> !IsSpace(Join(more)[0]))
    ensures AllTaken([BLANK] + more) && Join([BLANK] + more) == " " + Join(more)
  {
    MatchIsComplete(" " + Join(more), 1, Space);
    TakenInFront(BLANK, more);
  }

  lemma NotBlankFirst(words: seq<Piece>)
    requires forall w | w in words :: Printable(w)
    ensures var text := Join(Layout(words)); text != "" ==> !IsSpace(text[0])
  {
    if words != [] {
      var word, all := words[0], Layout(words);
      assert Printable(word);
      WordBegins(word);
      assert all[0] == word && Join(all)[0] == word.text[0];
    }
  }

  lemma WordBegins(word: Piece)
    requires Printable(word)
    ensures word.text != "" && !IsSpace(word.text[0])
  {
    assert word.text[0] == (word.text + " ")[0];
  }

  lemma {:induction false} LayoutSymbols(words: seq<Piece>)
    ensures PieceSymbols(Layout(words)) == PieceSymbols(words)
  {
    if words == [] {
    } else {
      var more := Layout(words[1..]);
      LayoutSymbols(words[1..]);
      assert Layout(words)[1..] == [BLANK] + more && ([BLANK] + more)[1..] == more;
      assert PieceSymbols([BLANK] + more) == PieceSymbols(more);
    }
  }

  // ---------------------------------------------------------------------------
  // The words of a message are tokens, and spell the message
  // ---------------------------------------------------------------------------

  /** The escaped text stands in `s` from `i` to `end`. */
  ghost predicate EscapedAt(text: string, s: string, i: nat, end: nat) {
    i <= end <= |s| && s[i..end] == EscapeAll(text)
  }

  ghost predicate EscapeAt(c: char, s: string, i: nat) {
    i + |Escape(c)| <= |s| && s[i..i + |Escape(c)|] == Escape(c)
  }

  lemma SplitSlice(s: string, i: nat, end: nat, head: string, tail: string)
    requires i <= end <= |s| && s[i..end] == head + tail
    ensures i + |head| <= end && s[i..i + |head|] == head && s[i + |head|..end] == tail
  {
    var all := s[i..end];
    assert head == all[..|head|] && tail == all[|head|..];
  }

  lemma EscapedFirst(text: string, s: string, i: nat, end: nat)
    requires EscapedAt(text, s, i, end) && text != ""
    ensures var next := i + |Escape(text[0])|;
      next <= end && EscapeAt(text[0], s, i) && EscapedAt(text[1..], s, next, end)
  {
    SplitSlice(s, i, end, Escape(text[0]), EscapeAll(text[1..]));
  }

  ghost predicate IsBody(s: string, i: nat, end: nat) {
    i <= end <= |s| && LiteralBody(s, i, end)
  }

  lemma PlainInFront(s: string, i: nat, end: nat)
    requires i < end <= |s| && s[i] != '\\' && s[i] != '"' && LiteralBody(s, i + 1, end)
    ensures LiteralBody(s, i, end)
  {
  }

  lemma CodeInFront(s: string, i: nat, end: nat)
    requires i + 6 <= end <= |s| && s[i] == '\\' && LiteralBody(s, i + 6, end)
    requires forall k | i + 2 <= k < i + 6 :: s[k] != '\\' && s[k] != '"'
    ensures LiteralBody(s, i, end)
  {
    PlainInFront(s, i + 5, end);
    PlainInFront(s, i + 4, end);
    PlainInFront(s, i + 3, end);
    PlainInFront(s, i + 2, end);
  }

  lemma SliceAt(s: string, i: nat, text: string)
    requires i + |text| <= |s| && s[i..i + |text|] == text
    ensures forall k | i <= k < i + |text| :: s[k] == text[k - i]
  {
    forall k | i <= k < i + |text| ensures s[k] == text[k - i] {
      assert s[i..i + |text|][k - i] == s[k];
    }
  }

  lemma EscapeInFront(c: char, s: string, i: nat, end: nat)
    requires EscapeAt(c, s, i) && i + |Escape(c)| <= end <= |s|
    ensures IsBody(s, i + |Escape(c)|, end) ==> IsBody(s, i, end)
  {
    SliceAt(s, i, Escape(c));
    if |Escape(c)| == 6 && LiteralBody(s, i + 6, end) {
      CodeInFront(s, i, end);
    }
  }

  lemma EscapedStep(text: string, s: string, i: nat, end: nat) returns (next: nat)
    requires EscapedAt(text, s, i, end) && text != ""
    ensures next <= end && EscapedAt(text[1..], s, next, end)
    ensures IsBody(s, next, end) ==> IsBody(s, i, end)
  {
    next := i + |Escape(text[0])|;
    EscapedFirst(text, s, i, end);
    EscapeInFront(text[0], s, i, end);
  }

  lemma {:induction false} EscapedIsBody(text: string, s: string, i: nat, end: nat)
    requires EscapedAt(text, s, i, end)
    ensures IsBody(s, i, end)
  {
    if text == "" {
      assert i == end;
    } else {
      var next := EscapedStep(text, s, i, end);
      EscapedIsBody(text[1..], s, next, end);
    }
  }

  lemma QuoteIsPrintable(text: string)
    ensures Printable(Piece(Literal, Quote(text)))
  {
    var s, body := Quote(text) + " ", EscapeAll(text);
    assert s[1..1 + |body|] == body;
    EscapedIsBody(text, s, 1, 1 + |body|);
  }

  lemma NameIsPrintable(name: string)
    requires IsName(name)
    ensures Printable(Piece(Ident, name))
  {
  }

  /** Every integer has a word that is read back as that integer. */
  lemma IntIsPrintable(n: int)
    ensures Printable(Piece(Kind.Number, IntText(n)))
    ensures Classify(IntText(n), Kind.Number) == Scalar(Some(Value.Number(n)))
  {
    var text := IntText(n);
    IntRoundTrip(n);
    DigitsFromIsAll(text, DigitsStart(text));
  }

  ghost predicate AllPrintable(words: seq<Piece>) {
    forall w | w in words :: Printable(w)
  }

  /** These words are tokens, and they are seen as these symbols. */
  ghost predicate Spells(words: seq<Piece>, symbols: seq<Symbol>) {
    AllPrintable(words) && PieceSymbols(words) == symbols
  }

  lemma PieceSymbolsCons(p: Piece, rest: seq<Piece>)
    ensures PieceSymbols([p] + rest) == PieceSymbol(p) + PieceSymbols(rest)
  {
    assert ([p] + rest)[1..] == rest;
  }

  lemma {:induction false} PieceSymbolsConcat(a: seq<Piece>, b: seq<Piece>)
    ensures PieceSymbols(a + b) == PieceSymbols(a) + PieceSymbols(b)
  {
    if a == [] {
      assert a + b == b;
    } else {
      var p, rest := a[0], a[1..];
      assert a == [p] + rest && a + b == [p] + (rest + b);
      PieceSymbolsCons(p, rest);
      PieceSymbolsCons(p, rest + b);
      PieceSymbolsConcat(rest, b);
      AppendIsAssociative(PieceSymbol(p), PieceSymbols(rest), PieceSymbols(b));
    }
  }

  lemma SpellsConcat(a: seq<Piece>, x: seq<Symbol>, b: seq<Piece>, y: seq<Symbol>)
    requires Spells(a, x) && Spells(b, y)
    ensures Spells(a + b, x + y)
  {
    PieceSymbolsConcat(a, b);
  }

  lemma WordSpells(word: Piece)
    requires Printable(word)
    ensures Spells([word], [Classify(word.text, word.kind)])
  {
    assert PieceSymbols([word][1..]) == [];
  }

  lemma MarkSpells(c: char)
    requires IsPunct(c)
    ensures Spells([Mark(c)], [Classify([c], Punct)])
  {
    WordSpells(Mark(c));
  }

  lemma {:induction false} SeparatorsSpell(separators: string)
    requires AreSeparators(separators)
    ensures Spells(SeparatorWords(separators), SeparatorsOf(separators))
  {
    if separators == "" {
    } else {
      MarkSpells(separators[0]);
      SeparatorsSpell(separators[1..]);
      SpellsConcat([Mark(separators[0])], [Separator([separators[0]])],
                   SeparatorWords(separators[1..]), SeparatorsOf(separators[1..]));
    }
  }

  lemma LeafSpells(tree: Tree)
    requires PrintableTree(tree) && !tree.MessageTree?
    ensures Spells(TreeWords(tree), SpellForm(FormOf(tree)))
  {
    match tree
    case IntTree(n) =>
      IntIsPrintable(n);
      WordSpells(TreeWords(tree)[0]);
    case FlagTree(b) =>
      NameIsPrintable(if b then "true" else "false");
      WordSpells(TreeWords(tree)[0]);
    case NameTree(name) =>
      NameIsPrintable(name);
      WordSpells(TreeWords(tree)[0]);
    case TextTree(text) =>
      QuoteIsPrintable(text);
      QuoteRoundTrip(text);
      WordSpells(TreeWords(tree)[0]);
  }

  lemma {:induction false} TreeSpells(tree: Tree)
    requires PrintableTree(tree)
    ensures Spells(TreeWords(tree), SpellForm(FormOf(tree)))
    decreases tree
  {
    if tree.MessageTree? {
      var words, symbols := EntryWords(tree.entries), SpellItems(ItemsOf(tree.entries));
      EntriesSpell(tree.entries);
      MarkSpells('{');
      MarkSpells('}');
      SpellsConcat(words, symbols, [Mark('}')], CLOSE);
      SpellsConcat([Mark('{')], [Open], words + [Mark('}')], symbols + CLOSE);
    } else {
      LeafSpells(tree);
    }
  }

  lemma {:induction false} EntriesSpell(entries: seq<Entry>)
    requires PrintableEntries(entries)
    ensures Spells(EntryWords(entries), SpellItems(ItemsOf(entries)))
    decreases entries
  {
    if entries == [] {
    } else {
      EntrySpells(entries[0]);
      EntriesSpell(entries[1..]);
      var e, items := entries[0], ItemsOf(entries);
      assert items[1..] == ItemsOf(entries[1..]);
      SpellsConcat([Piece(Ident, e.field), Mark(':')] + (TreeWords(e.value) + SeparatorWords(e.separators)),
                   SpellItem(items[0]),
                   EntryWords(entries[1..]), SpellItems(items[1..]));
    }
  }

  lemma {:induction false} EntrySpells(e: Entry)
    requires IsName(e.field) && '.' !in e.field && AreSeparators(e.separators) && PrintableTree(e.value)
    ensures Spells([Piece(Ident, e.field), Mark(':')] + (TreeWords(e.value) + SeparatorWords(e.separators)),
                   SpellItem(ItemsOf([e])[0]))
    decreases e, 0
  {
    var field, symbol := Piece(Ident, e.field), Named(e.field, false, NameValue(e.field));
    NameIsPrintable(e.field);
    WordSpells(field);
    MarkSpells(':');
    SpellsConcat([field], [symbol], [Mark(':')], [Colon]);
    TreeSpells(e.value);
    SeparatorsSpell(e.separators);
    SpellsConcat(TreeWords(e.value), SpellForm(FormOf(e.value)),
                 SeparatorWords(e.separators), SeparatorsOf(e.separators));
    assert [field] + [Mark(':')] == [field, Mark(':')] && [symbol] + [Colon] == [symbol, Colon];
    SpellsConcat([field, Mark(':')], [symbol, Colon], TreeWords(e.value) + SeparatorWords(e.separators),
                 SpellForm(FormOf(e.value)) + SeparatorsOf(e.separators));
  }

  // ---------------------------------------------------------------------------
  // Round trips
  // ---------------------------------------------------------------------------

  function WordOf(p: Piece): seq<Piece> {
    if IsTrivia(p.kind) then [] else [p]
  }

  /** The words among the pieces of a text. */
  function WordsIn(pieces: seq<Piece>): seq<Piece> {
    if pieces == [] then [] else WordOf(pieces[0]) + WordsIn(pieces[1..])
  }

  lemma {:induction false} WordsShowPieces(pieces: seq<Piece>)
    ensures PieceSymbols(WordsIn(pieces)) == PieceSymbols(pieces)
  {
    if pieces == [] {
    } else {
      WordsShowPieces(pieces[1..]);
      var more := WordsIn(pieces[1..]);
      if IsTrivia(pieces[0].kind) {
        assert [] + more == more;
      } else {
        assert ([pieces[0]] + more)[1..] == more;
      }
    }
  }

  /** The text reads as this message, all of it. */
  ghost predicate ReadsBack(source: string, entries: seq<Entry>) {
    && TokensIn(source).Ok?
    && var ts := TokensIn(source).value;
       ParseMessage(Symbols(ts), 0) == Ok((EntryFields(entries, map[]), |ts|))
  }

  /**
   Whatever blanks and comments stand between the words of a message, if the pattern
   takes the words apart then the text tokenizes and parses to the fields of the message.
   */
  lemma LayoutRoundTrip(pieces: seq<Piece>, entries: seq<Entry>)
    requires PrintableEntries(entries)
    requires AllTaken(pieces) && WordsIn(pieces) == TreeWords(MessageTree(entries))
    ensures ReadsBack(Join(pieces), entries)
  {
    TreeSpells(MessageTree(entries));
    EntriesMean(entries, map[]);
    WordsShowPieces(pieces);
    SpelledIsParsed(pieces, ItemsOf(entries));
  }

  /** The words of a message, with a blank behind each. */
  function Print(entries: seq<Entry>): string {
    Join(Layout(TreeWords(MessageTree(entries))))
  }

  /** Printing any message and reading the text back gives the fields of the message. */
  lemma PrintRoundTrip(entries: seq<Entry>)
    requires PrintableEntries(entries)
    ensures ReadsBack(Print(entries), entries)
  {
    var words := TreeWords(MessageTree(entries));
    TreeSpells(MessageTree(entries));
    EntriesMean(entries, map[]);
    LayoutIsTaken(words);
    LayoutSymbols(words);
    SpelledIsParsed(Layout(words), ItemsOf(entries));
  }
}
