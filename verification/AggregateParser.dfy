/**
 The parser of a protobuf aggregate option, and the option itself.

 Tokens are classified into symbols, the grammar over symbols is a datatype with
 its spelling and its meaning, and the parser is proved to accept exactly the
 spellings of the grammar and to give their meaning.

 The parser is a class over an index, as in the source.  Its methods are proved
 against functions on symbols, about which everything else is stated.
 */
module AggregateParsers {
  import opened Decimals
  import opened JsonStrings
  import opened Results
  import opened RegistryTokens

  type Fields = map<string, seq<Value>>

  datatype Value = Message(fields: Fields) | Text(text: string) | Number(number: int) | Flag(flag: bool)

  /** Where in the tokens the parser stops, and why. */
  datatype ParseError =
    | UnexpectedEnd
    | Expected(mark: char, at: nat)
    | InvalidField(at: nat)
    | InvalidValue(at: nat)
    | InvalidLiteral(at: nat)

  // ---------------------------------------------------------------------------
  // Symbols
  // ---------------------------------------------------------------------------

  /** A word is a token without its line. */
  datatype Word = Word(text: string, kind: Kind)

  /** What the parser sees in a token; a literal that cannot be converted has no value. */
  datatype Symbol =
    | Open
    | Close
    | Colon
    | Separator(text: string)
    | Named(name: string, dotted: bool, value: Value)
    | Scalar(scalar: Option<Value>)
    | Stray

  predicate IsMark(text: string, c: char) {
    |text| == 1 && text[0] == c
  }

  predicate IsSeparator(text: string) {
    IsMark(text, ',') || IsMark(text, ';')
  }

  function NameValue(name: string): Value {
    if name == "true" then Flag(true) else if name == "false" then Flag(false) else Text(name)
  }

  function LiteralValue(text: string): Option<Value> {
    var decoded := DecodeLiteral(text);
    if decoded.Some? then Some(Text(decoded.value)) else None
  }

  function Classify(text: string, kind: Kind): Symbol {
    if IsMark(text, '{') then Open
    else if IsMark(text, '}') then Close
    else if IsMark(text, ':') then Colon
    else if IsSeparator(text) then Separator(text)
    else
      match kind
      case Ident => Named(text, '.' in text, NameValue(text))
      case Literal => Scalar(LiteralValue(text))
      case Number => Scalar(if IsNumeral(text) then Some(Value.Number(IntOf(text))) else None)
      case _ => Stray
  }

  function SymbolOf(t: Token): Symbol {
    Classify(t.value, t.kind)
  }

  function Symbols(ts: seq<Token>): (symbols: seq<Symbol>)
    ensures |symbols| == |ts|
    ensures forall k | 0 <= k < |ts| :: symbols[k] == SymbolOf(ts[k])
  {
    seq(|ts|, k requires 0 <= k < |ts| => SymbolOf(ts[k]))
  }

  // ---------------------------------------------------------------------------
  // The grammar: its spelling and its meaning
  // ---------------------------------------------------------------------------

  datatype Form = Leaf(symbol: Symbol) | Nested(items: seq<Item>)

  /** A field name, its value, and any number of separators behind it. */
  datatype Item = Item(field: Symbol, value: Form, separators: seq<Symbol>)

  const CLOSE: seq<Symbol> := [Close]

  function SpellForm(form: Form): seq<Symbol> {
    match form
    case Leaf(symbol) => [symbol]
    case Nested(items) => [Open] + (SpellItems(items) + CLOSE)
  }

  function SpellItem(item: Item): seq<Symbol> {
    [item.field, Colon] + (SpellForm(item.value) + item.separators)
  }

  function SpellItems(items: seq<Item>): seq<Symbol> {
    if items == [] then [] else SpellItem(items[0]) + SpellItems(items[1..])
  }

  /** Field names have no dots. */
  ghost predicate WellFormed(items: seq<Item>) {
    items != [] ==>
      && items[0].field.Named? && !items[0].field.dotted
      && (forall s | s in items[0].separators :: s.Separator?)
      && WellFormedForm(items[0].value) && WellFormed(items[1..])
  }

  ghost predicate WellFormedForm(form: Form) {
    match form
    case Leaf(symbol) => symbol.Named? || (symbol.Scalar? && symbol.scalar.Some?)
    case Nested(items) => WellFormed(items)
  }

  function Add(fields: Fields, name: string, value: Value): Fields {
    fields[name := (if name in fields then fields[name] else []) + [value]]
  }

  function Meaning(form: Form): Value
    requires WellFormedForm(form)
  {
    match form
    case Leaf(symbol) => if symbol.Named? then symbol.value else symbol.scalar.value
    case Nested(items) => Message(FieldsOf(items, map[]))
  }

  /** The values of each field in order, added to those in `fields`. */
  function FieldsOf(items: seq<Item>, fields: Fields): Fields
    requires WellFormed(items)
  {
    if items == [] then fields
    else FieldsOf(items[1..], Add(fields, items[0].field.name, Meaning(items[0].value)))
  }

  /** The values that the items give a field, in the order in which they stand. */
  function ValuesOf(items: seq<Item>, name: string): seq<Value>
    requires WellFormed(items)
  {
    if items == [] then []
    else (if items[0].field.name == name then [Meaning(items[0].value)] else []) + ValuesOf(items[1..], name)
  }

  function Held(fields: Fields, name: string): seq<Value> {
    if name in fields then fields[name] else []
  }

  lemma {:induction false} AddHolds(fields: Fields, field: string, value: Value, name: string)
    ensures Held(Add(fields, field, value), name) == Held(fields, name) + if field == name then [value] else []
    ensures name in Add(fields, field, value) <==> name in fields || field == name
  {
    assert Held(fields, name) + [] == Held(fields, name);
  }

  /** A message has the fields that its items name, each with all its values in order. */
  lemma {:induction false} FieldsKeepOrder(items: seq<Item>, fields: Fields, name: string)
    requires WellFormed(items)
    ensures Held(FieldsOf(items, fields), name) == Held(fields, name) + ValuesOf(items, name)
    ensures name in FieldsOf(items, fields) <==> name in fields || ValuesOf(items, name) != []
  {
    if items == [] {
      assert Held(fields, name) + [] == Held(fields, name);
    } else {
      var field, value := items[0].field.name, Meaning(items[0].value);
      var first := if field == name then [value] else [];
      AddHolds(fields, field, value, name);
      FieldsKeepOrder(items[1..], Add(fields, field, value), name);
      FirstValue(items, name);
      Regroup(Held(fields, name), first, ValuesOf(items[1..], name));
    }
  }

  lemma Regroup<T>(a: seq<T>, b: seq<T>, c: seq<T>)
    ensures a + b + c == a + (b + c)
  {
  }

  lemma FirstValue(items: seq<Item>, name: string)
    requires WellFormed(items) && items != []
    ensures ValuesOf(items, name)
      == (if items[0].field.name == name then [Meaning(items[0].value)] else []) + ValuesOf(items[1..], name)
  {
  }

  // ---------------------------------------------------------------------------
  // The parser as functions of the symbols and the index
  // ---------------------------------------------------------------------------

  function ParseMessage(ss: seq<Symbol>, i: nat): (r: Result<(Fields, nat), ParseError>)
    ensures r.Ok? ==> i < r.value.1 <= |ss|
  {
    if i >= |ss| then Err(UnexpectedEnd)
    else if ss[i] != Open then Err(Expected('{', i))
    else ParseItems(ss, i + 1, map[])
  }

  /** The fields up to the closing brace, added to those already parsed. */
  function ParseItems(ss: seq<Symbol>, i: nat, fields: Fields): (r: Result<(Fields, nat), ParseError>)
    ensures r.Ok? ==> i < r.value.1 <= |ss|
    decreases |ss| - i, 1
  {
    if i >= |ss| then Err(UnexpectedEnd)
    else if ss[i] == Close then Ok((fields, i + 1))
    else
      var field := ParseField(ss, i);
      if field.Err? then Err(field.error)
      else ParseItems(ss, field.value.1, Add(fields, ss[i].name, field.value.0))
  }

  /** A field name, a colon, a value and any separators. */
  function ParseField(ss: seq<Symbol>, i: nat): (r: Result<(Value, nat), ParseError>)
    requires i < |ss|
    ensures r.Ok? ==> ss[i].Named? && i < r.value.1 <= |ss|
    decreases |ss| - i, 0
  {
    if !ss[i].Named? || ss[i].dotted then Err(InvalidField(i))
    else if i + 1 >= |ss| then Err(UnexpectedEnd)
    else if ss[i + 1] != Colon then Err(Expected(':', i + 1))
    else
      var value := ParseValue(ss, i + 2);
      if value.Err? then Err(value.error) else Ok((value.value.0, AfterSeparators(ss, value.value.1)))
  }

  /** A nested message or a single symbol. */
  function ParseValue(ss: seq<Symbol>, i: nat): (r: Result<(Value, nat), ParseError>)
    ensures r.Ok? ==> i < r.value.1 <= |ss|
    decreases |ss| - i, 2
  {
    if i >= |ss| then Err(UnexpectedEnd)
    else
      match ss[i]
      case Open =>
        var message := ParseItems(ss, i + 1, map[]);
        if message.Err? then Err(message.error) else Ok((Message(message.value.0), message.value.1))
      case Named(_, _, value) => Ok((value, i + 1))
      case Scalar(Some(value)) => Ok((value, i + 1))
      case Scalar(None) => Err(InvalidLiteral(i))
      case _ => Err(InvalidValue(i))
  }

  function AfterSeparators(ss: seq<Symbol>, i: nat): (j: nat)
    ensures i <= j && (i <= |ss| ==> j <= |ss|)
    decreases |ss| - i
  {
    if i < |ss| && ss[i].Separator? then AfterSeparators(ss, i + 1) else i
  }

  // ---------------------------------------------------------------------------
  // The parser accepts exactly the spellings
  // ---------------------------------------------------------------------------

  ghost predicate StandsAt(ss: seq<Symbol>, i: nat, words: seq<Symbol>, k: nat)
    requires k < |words| && i + k < |ss|
  {
    words[k] == ss[i + k]
  }

  ghost predicate SpelledAt(ss: seq<Symbol>, i: nat, words: seq<Symbol>) {
    i + |words| <= |ss| && forall k: nat {:trigger StandsAt(ss, i, words, k)} | k < |words| :: StandsAt(ss, i, words, k)
  }

  lemma SpelledParts(ss: seq<Symbol>, i: nat, a: seq<Symbol>, b: seq<Symbol>)
    ensures SpelledAt(ss, i, a + b) <==> SpelledAt(ss, i, a) && SpelledAt(ss, i + |a|, b)
  {
    var all := a + b;
    if SpelledAt(ss, i, all) {
      forall k: nat | k < |a| ensures StandsAt(ss, i, a, k) {
        assert all[k] == a[k] && StandsAt(ss, i, all, k);
      }
      forall k: nat {:trigger b[k]} | k < |b| ensures StandsAt(ss, i + |a|, b, k) {
        assert all[|a| + k] == b[k] && StandsAt(ss, i, all, |a| + k);
      }
    } else if SpelledAt(ss, i, a) && SpelledAt(ss, i + |a|, b) {
      forall k: nat | k < |all| ensures StandsAt(ss, i, all, k) {
        if k < |a| {
          assert StandsAt(ss, i, a, k);
        } else {
          assert StandsAt(ss, i + |a|, b, k - |a|);
        }
      }
    }
  }

  lemma {:induction false} SeparatorsAreSkipped(ss: seq<Symbol>, i: nat, end: nat)
    requires i <= end < |ss| && (forall k | i <= k < end :: ss[k].Separator?) && !ss[end].Separator?
    ensures AfterSeparators(ss, i) == end
    decreases end - i
  {
    if i == end {
    } else {
      SeparatorsAreSkipped(ss, i + 1, end);
    }
  }

  lemma {:induction false} SkippedAreSeparators(ss: seq<Symbol>, i: nat)
    requires i <= |ss|
    ensures forall k | i <= k < AfterSeparators(ss, i) :: ss[k].Separator?
    decreases |ss| - i
  {
    if i < |ss| && ss[i].Separator? {
      SkippedAreSeparators(ss, i + 1);
    }
  }

  lemma {:induction false} SkippedAreSpelled(ss: seq<Symbol>, i: nat)
    requires i <= |ss|
    ensures SpelledAt(ss, i, ss[i..AfterSeparators(ss, i)])
    ensures forall s | s in ss[i..AfterSeparators(ss, i)] :: s.Separator?
  {
    SkippedAreSeparators(ss, i);
  }

  /** The item stands at `i`, and what follows is no separator. */
  ghost predicate ItemAt(ss: seq<Symbol>, i: nat, item: Item) {
    && i + 2 <= |ss| && ss[i] == item.field && ss[i + 1] == Colon
    && SpelledAt(ss, i + 2, SpellForm(item.value))
    && AfterSeparators(ss, i + 2 + |SpellForm(item.value)|) == i + |SpellItem(item)|
  }

  /** A name, a colon, a form and separators stand where they are spelled, and what follows behind them. */
  lemma PartsStand(ss: seq<Symbol>, i: nat, field: Symbol, form: seq<Symbol>, separators: seq<Symbol>,
          rest: seq<Symbol>)
    requires SpelledAt(ss, i, [field, Colon] + (form + separators) + rest)
    requires (forall s | s in separators :: s.Separator?) && rest != [] && !rest[0].Separator?
    ensures i + 2 <= |ss| && ss[i] == field && ss[i + 1] == Colon && SpelledAt(ss, i + 2, form)
    ensures AfterSeparators(ss, i + 2 + |form|) == i + 2 + |form| + |separators|
    ensures SpelledAt(ss, i + 2 + |form| + |separators|, rest)
  {
    var behind, next := i + 2 + |form|, i + 2 + |form| + |separators|;
    SpelledParts(ss, i, [field, Colon] + (form + separators), rest);
    SpelledParts(ss, i, [field, Colon], form + separators);
    SpelledParts(ss, i + 2, form, separators);
    assert StandsAt(ss, i, [field, Colon], 0) && StandsAt(ss, i, [field, Colon], 1);
    forall k | behind <= k < next ensures ss[k].Separator? {
      assert StandsAt(ss, behind, separators, k - behind) && separators[k - behind] in separators;
    }
    assert StandsAt(ss, next, rest, 0);
    SeparatorsAreSkipped(ss, behind, next);
  }

  lemma SpellFirst(items: seq<Item>)
    requires items != []
    ensures SpellItems(items) + CLOSE == SpellItem(items[0]) + (SpellItems(items[1..]) + CLOSE)
    ensures |SpellItems(items)| == |SpellItem(items[0])| + |SpellItems(items[1..])|
  {
  }

  lemma {:induction false} FirstItemStands(ss: seq<Symbol>, i: nat, items: seq<Item>)
    requires items != [] && WellFormed(items) && SpelledAt(ss, i, SpellItems(items) + CLOSE)
    ensures ItemAt(ss, i, items[0])
    ensures SpelledAt(ss, i + |SpellItem(items[0])|, SpellItems(items[1..]) + CLOSE)
  {
    SpellFirst(items);
    NoSeparatorFirst(items[1..]);
    ItemStands(ss, i, items[0], SpellItems(items[1..]) + CLOSE);
  }

  lemma ItemStands(ss: seq<Symbol>, i: nat, item: Item, rest: seq<Symbol>)
    requires SpelledAt(ss, i, SpellItem(item) + rest)
    requires (forall s | s in item.separators :: s.Separator?) && rest != [] && !rest[0].Separator?
    ensures ItemAt(ss, i, item) && SpelledAt(ss, i + |SpellItem(item)|, rest)
  {
    PartsStand(ss, i, item.field, SpellForm(item.value), item.separators, rest);
  }

  /** What follows an item is a name or the closing brace. */
  lemma {:induction false} NoSeparatorFirst(items: seq<Item>)
    requires WellFormed(items)
    ensures !(SpellItems(items) + CLOSE)[0].Separator?
  {
    if items != [] {
      assert SpellItems(items)[0] == items[0].field;
    }
  }

  lemma {:induction false} FieldParses(ss: seq<Symbol>, i: nat, item: Item, value: Value)
    requires ItemAt(ss, i, item) && item.field.Named? && !item.field.dotted
    requires ParseValue(ss, i + 2) == Ok((value, i + 2 + |SpellForm(item.value)|))
    ensures i < |ss| && ss[i] == item.field && ParseField(ss, i) == Ok((value, i + |SpellItem(item)|))
  {
  }

  /** A spelled form is parsed to its meaning, and exactly its symbols are consumed. */
  lemma {:induction false} FormParses(ss: seq<Symbol>, i: nat, form: Form)
    requires SpelledAt(ss, i, SpellForm(form)) && WellFormedForm(form)
    ensures ParseValue(ss, i) == Ok((Meaning(form), i + |SpellForm(form)|))
    decreases form
  {
    assert StandsAt(ss, i, SpellForm(form), 0);
    if form.Nested? {
      SpelledParts(ss, i, [Open], SpellItems(form.items) + CLOSE);
      ItemsParse(ss, i + 1, form.items, map[]);
    }
  }

  /** The item at `i` is parsed as a field with its meaning. */
  ghost predicate FieldAt(ss: seq<Symbol>, i: nat, item: Item)
    requires WellFormedForm(item.value)
  {
    i < |ss| && ss[i] == item.field && ParseField(ss, i) == Ok((Meaning(item.value), i + |SpellItem(item)|))
  }

  /** From `i` on the items are parsed, up to their closing brace. */
  ghost predicate Parses(ss: seq<Symbol>, i: nat, items: seq<Item>, fields: Fields)
    requires WellFormed(items)
  {
    ParsesTo(ss, i, fields, FieldsOf(items, fields), i + |SpellItems(items)| + 1)
  }

  ghost predicate ParsesTo(ss: seq<Symbol>, i: nat, fields: Fields, parsed: Fields, end: nat) {
    ParseItems(ss, i, fields) == Ok((parsed, end))
  }

  lemma {:induction false} FirstFieldStands(ss: seq<Symbol>, i: nat, items: seq<Item>)
    requires items != [] && WellFormed(items) && ItemAt(ss, i, items[0])
    ensures FieldAt(ss, i, items[0])
    decreases items, 0
  {
    FormParses(ss, i + 2, items[0].value);
    FieldParses(ss, i, items[0], Meaning(items[0].value));
  }

  lemma {:induction false} ItemInFrontParses(ss: seq<Symbol>, i: nat, items: seq<Item>, fields: Fields)
    requires WellFormed(items) && items != [] && FieldAt(ss, i, items[0])
    requires Parses(ss, i + |SpellItem(items[0])|, items[1..],
             Add(fields, items[0].field.name, Meaning(items[0].value)))
    ensures Parses(ss, i, items, fields)
  {
    var item, rest := items[0], items[1..];
    var value, next := Meaning(item.value), i + |SpellItem(item)|;
    var more := Add(fields, item.field.name, value);
    FirstFieldGoesOn(ss, i, fields, value, next, FieldsOf(rest, more), next + |SpellItems(rest)| + 1);
    SpellFirst(items);
    FieldsFirst(items, fields);
  }

  lemma FieldsFirst(items: seq<Item>, fields: Fields)
    requires WellFormed(items) && items != []
    ensures FieldsOf(items, fields) == FieldsOf(items[1..], Add(fields, items[0].field.name, Meaning(items[0].value)))
  {
  }

  lemma FirstFieldGoesOn(ss: seq<Symbol>, i: nat, fields: Fields, value: Value, next: nat, parsed: Fields, end: nat)
    requires i < |ss| && ParseField(ss, i) == Ok((value, next))
    requires ParsesTo(ss, next, Add(fields, ss[i].name, value), parsed, end)
    ensures ParsesTo(ss, i, fields, parsed, end)
  {
    FirstFieldParses(ss, i, fields, value, next);
  }

  lemma NoItemsParse(ss: seq<Symbol>, i: nat, items: seq<Item>, fields: Fields)
    requires items == [] && SpelledAt(ss, i, SpellItems(items) + CLOSE)
    ensures Parses(ss, i, items, fields)
  {
    assert SpellItems(items) + CLOSE == CLOSE;
    assert StandsAt(ss, i, CLOSE, 0);
  }

  lemma {:induction false} ItemsParse(ss: seq<Symbol>, i: nat, items: seq<Item>, fields: Fields)
    requires SpelledAt(ss, i, SpellItems(items) + CLOSE) && WellFormed(items)
    ensures Parses(ss, i, items, fields)
    decreases items, 1
  {
    if items == [] {
      NoItemsParse(ss, i, items, fields);
    } else {
      FirstItemStands(ss, i, items);
      FirstFieldStands(ss, i, items);
      ItemsParse(ss, i + |SpellItem(items[0])|, items[1..], Add(fields, items[0].field.name, Meaning(items[0].value)));
      ItemInFrontParses(ss, i, items, fields);
    }
  }

  /** A parsed field, and then the others. */
  lemma FirstFieldParses(ss: seq<Symbol>, i: nat, fields: Fields, value: Value, next: nat)
    requires i < |ss| && ParseField(ss, i) == Ok((value, next))
    ensures ParseItems(ss, i, fields) == ParseItems(ss, next, Add(fields, ss[i].name, value))
  {
  }

  lemma FirstFieldFails(ss: seq<Symbol>, i: nat, fields: Fields, error: ParseError)
    requires i < |ss| && ss[i] != Close && ParseField(ss, i) == Err(error)
    ensures ParseItems(ss, i, fields) == Err(error)
  {
  }

  /** What is parsed as a value is the spelling of a form with that meaning. */
  lemma {:induction false} ValueIsSpelled(ss: seq<Symbol>, i: nat, value: Value, end: nat) returns (form: Form)
    requires ParseValue(ss, i) == Ok((value, end))
    ensures WellFormedForm(form) && SpelledAt(ss, i, SpellForm(form))
    ensures Meaning(form) == value && end == i + |SpellForm(form)|
    decreases |ss| - i
  {
    if ss[i] == Open {
      var items := ItemsAreSpelled(ss, i + 1, map[], value.fields, end);
      form := Nested(items);
      SpelledParts(ss, i, [Open], SpellItems(items) + CLOSE);
    } else {
      form := Leaf(ss[i]);
    }
  }

  /** The items, spelled from `i` to their closing brace before `end`, take these fields to the parsed ones. */
  ghost predicate ItemsFit(ss: seq<Symbol>, i: nat, items: seq<Item>, fields: Fields, parsed: Fields, end: nat) {
    && WellFormed(items) && SpelledAt(ss, i, SpellItems(items) + CLOSE)
    && FieldsOf(items, fields) == parsed && end == i + |SpellItems(items)| + 1
  }

  lemma {:induction false} ItemsAreSpelled(ss: seq<Symbol>, i: nat, fields: Fields, parsed: Fields, end: nat)
    returns (items: seq<Item>)
    requires ParseItems(ss, i, fields) == Ok((parsed, end))
    ensures ItemsFit(ss, i, items, fields, parsed, end)
    decreases |ss| - i, 1
  {
    items := [];
    if ss[i] == Close {
      CloseFits(ss, i, fields);
    } else {
      var (value, next) := ParseField(ss, i).value;
      var item := FieldIsSpelled(ss, i, value, next);
      FirstFieldParses(ss, i, fields, value, next);
      var more := ItemsAreSpelled(ss, next, Add(fields, ss[i].name, value), parsed, end);
      ItemFits(ss, i, item, more, fields, parsed, end);
      items := [item] + more;
    }
  }

  /** The item is well formed and stands at `i`, each part where it is spelled. */
  ghost predicate ItemSpelledAt(ss: seq<Symbol>, i: nat, item: Item) {
    && i + 1 < |ss| && ss[i] == item.field && ss[i + 1] == Colon
    && item.field.Named? && !item.field.dotted && (forall s | s in item.separators :: s.Separator?)
    && WellFormedForm(item.value) && SpelledAt(ss, i + 2, SpellForm(item.value))
    && SpelledAt(ss, i + 2 + |SpellForm(item.value)|, item.separators)
  }

  lemma {:induction false} FieldIsSpelled(ss: seq<Symbol>, i: nat, value: Value, next: nat) returns (item: Item)
    requires i < |ss| && ParseField(ss, i) == Ok((value, next))
    ensures ItemSpelledAt(ss, i, item) && Meaning(item.value) == value && next == i + |SpellItem(item)|
    decreases |ss| - i, 0
  {
    var behind := FieldFound(ss, i, value, next);
    var form := ValueIsSpelled(ss, i + 2, value, behind);
    SkippedAreSpelled(ss, behind);
    item := Item(ss[i], form, ss[behind..next]);
  }

  lemma {:induction false} CloseFits(ss: seq<Symbol>, i: nat, fields: Fields)
    requires i < |ss| && ss[i] == Close
    ensures ItemsFit(ss, i, [], fields, fields, i + 1)
    ensures ParseItems(ss, i, fields) == Ok((fields, i + 1))
  {
    assert SpellItems([]) + CLOSE == CLOSE;
  }

  lemma {:induction false} ItemFits(ss: seq<Symbol>, i: nat, item: Item, more: seq<Item>, fields: Fields,
          parsed: Fields, end: nat)
    requires ItemSpelledAt(ss, i, item)
    requires ItemsFit(ss, i + |SpellItem(item)|, more, Add(fields, item.field.name, Meaning(item.value)), parsed, end)
    ensures ItemsFit(ss, i, [item] + more, fields, parsed, end)
  {
    ItemIsSpelled(ss, i, item, SpellItems(more) + CLOSE);
    ItemInFront(item, more, fields);
  }

  /** What a parsed field is made of. */
  lemma {:induction false} FieldFound(ss: seq<Symbol>, i: nat, value: Value, next: nat) returns (behind: nat)
    requires i < |ss| && ParseField(ss, i) == Ok((value, next))
    ensures i + 1 < |ss| && ss[i].Named? && !ss[i].dotted && ss[i + 1] == Colon
    ensures ParseValue(ss, i + 2) == Ok((value, behind)) && behind <= |ss| && next == AfterSeparators(ss, behind)
  {
    behind := ParseValue(ss, i + 2).value.1;
  }

  lemma {:induction false} ItemIsSpelled(ss: seq<Symbol>, i: nat, item: Item, rest: seq<Symbol>)
    requires i + 1 < |ss| && ss[i] == item.field && ss[i + 1] == Colon
    requires SpelledAt(ss, i + 2, SpellForm(item.value))
    requires SpelledAt(ss, i + 2 + |SpellForm(item.value)|, item.separators)
    requires SpelledAt(ss, i + |SpellItem(item)|, rest)
    ensures SpelledAt(ss, i, SpellItem(item) + rest)
  {
    SpelledParts(ss, i + 2, SpellForm(item.value), item.separators);
    SpelledParts(ss, i, [item.field, Colon], SpellForm(item.value) + item.separators);
    SpelledParts(ss, i, SpellItem(item), rest);
  }

  lemma {:induction false} ItemInFront(item: Item, more: seq<Item>, fields: Fields)
    requires item.field.Named? && !item.field.dotted && (forall s | s in item.separators :: s.Separator?)
    requires WellFormedForm(item.value) && WellFormed(more)
    ensures var items := [item] + more;
      && WellFormed(items) && SpellItems(items) == SpellItem(item) + SpellItems(more)
      && SpellItems(items) + CLOSE == SpellItem(item) + (SpellItems(more) + CLOSE)
      && FieldsOf(items, fields) == FieldsOf(more, Add(fields, item.field.name, Meaning(item.value)))
  {
    assert ([item] + more)[1..] == more;
  }

  /** The items are spelled from `i` up to `end` and have these fields. */
  ghost predicate IsMessage(ss: seq<Symbol>, i: nat, items: seq<Item>, parsed: Fields, end: nat) {
    && WellFormed(items) && SpelledAt(ss, i, SpellForm(Nested(items)))
    && FieldsOf(items, map[]) == parsed && end == i + |SpellForm(Nested(items))|
  }

  /** The parser accepts exactly the spellings of messages, and consumes exactly what it was spelled with. */
  lemma AcceptsExactlySpellings(ss: seq<Symbol>, i: nat, parsed: Fields, end: nat)
    ensures ParseMessage(ss, i) == Ok((parsed, end)) <==> exists items :: IsMessage(ss, i, items, parsed, end)
  {
    if ParseMessage(ss, i) == Ok((parsed, end)) {
      var items := ItemsAreSpelled(ss, i + 1, map[], parsed, end);
      SpelledParts(ss, i, [Open], SpellItems(items) + CLOSE);
      assert IsMessage(ss, i, items, parsed, end);
    }
    forall items | IsMessage(ss, i, items, parsed, end) ensures ParseMessage(ss, i) == Ok((parsed, end)) {
      MessageParses(ss, i, items);
    }
  }

  lemma MessageParses(ss: seq<Symbol>, i: nat, items: seq<Item>)
    requires WellFormed(items) && SpelledAt(ss, i, SpellForm(Nested(items)))
    ensures ParseMessage(ss, i) == Ok((FieldsOf(items, map[]), i + |SpellForm(Nested(items))|))
  {
    assert StandsAt(ss, i, SpellForm(Nested(items)), 0);
    SpelledParts(ss, i, [Open], SpellItems(items) + CLOSE);
    ItemsParse(ss, i + 1, items, map[]);
  }

  // ---------------------------------------------------------------------------
  // The parser object
  // ---------------------------------------------------------------------------

  /** The tokenizer makes punctuation of these marks, and of nothing else. */
  predicate MarksApart(t: Token) {
    && (|t.value| == 1 && t.value[0] in "{}:,;" ==> t.kind == Punct)
    && (t.kind == Kind.Number ==> IsNumeral(t.value))
  }

  class AggregateParser {
    const tokens: seq<Token>
    var index: nat

    ghost predicate Valid() {
      forall t | t in tokens :: MarksApart(t)
    }

    ghost function Seen(): seq<Symbol> {
      Symbols(tokens)
    }

    constructor (tokens: seq<Token>, index: nat)
      requires forall t | t in tokens :: MarksApart(t)
      ensures Valid() && this.tokens == tokens && this.index == index
    {
      this.tokens, this.index := tokens, index;
    }

    method Peek() returns (r: Result<Token, ParseError>)
      ensures r == if index < |tokens| then Ok(tokens[index]) else Err(UnexpectedEnd)
    {
      if index >= |tokens| {
        return Err(UnexpectedEnd);
      }
      return Ok(tokens[index]);
    }

    /** Takes the next token; an expected mark that is not there is an error. */
    method Take(expected: Option<char>) returns (r: Result<Token, ParseError>)
      modifies this
      ensures r.Ok? <==> old(index) < |tokens| && (expected.Some? ==> IsMark(tokens[old(index)].value, expected.value))
      ensures r.Ok? ==> r.value == tokens[old(index)] && index == old(index) + 1
      ensures r.Err? ==> index == old(index)
      ensures r.Err? ==>
        r.error == if index < |tokens| && expected.Some? then Expected(expected.value, index) else UnexpectedEnd
    {
      var token := Peek();
      if token.Err? {
        return token;
      }
      if expected.Some? && !IsMark(token.value.value, expected.value) {
        return Err(Expected(expected.value, index));
      }
      index := index + 1;
      return token;
    }

    method Message() returns (r: Result<Fields, ParseError>)
      requires Valid()
      modifies this
      ensures r.Ok? ==> ParseMessage(Seen(), old(index)) == Ok((r.value, index))
      ensures r.Err? ==> ParseMessage(Seen(), old(index)) == Err(r.error)
      decreases |tokens| - index, 0
    {
      var open := Take(Some('{'));
      if open.Err? {
        return Err(open.error);
      }
      r := MessageFields();
    }

    /** The loop over the fields, up to the closing brace. */
    method MessageFields() returns (r: Result<Fields, ParseError>)
      requires Valid() && index <= |tokens|
      modifies this
      ensures r.Ok? ==> ParseItems(Seen(), old(index), map[]) == Ok((r.value, index))
      ensures r.Err? ==> ParseItems(Seen(), old(index), map[]) == Err(r.error)
      decreases |tokens| - index, 2
    {
      ghost var ss := Seen();
      var result: Fields := map[];
      while true
        invariant old(index) <= index <= |tokens|
        invariant ParseItems(ss, old(index), map[]) == ParseItems(ss, index, result)
        decreases |tokens| - index
      {
        var next := Peek();
        if next.Err? {
          return Err(next.error);
        }
        if IsMark(next.value.value, '}') {
          break;
        }
        var more := Field(result);
        if more.Err? {
          return Err(more.error);
        }
        result := more.value;
      }
      var close := Take(Some('}'));
      return Ok(result);
    }

    /** One round of the loop over the fields of a message. */
    method Field(fields: Fields) returns (r: Result<Fields, ParseError>)
      requires Valid() && index < |tokens| && !IsMark(tokens[index].value, '}')
      modifies this
      ensures r.Ok? ==> old(index) < index <= |tokens|
      ensures r.Ok? ==> ParseItems(Seen(), old(index), fields) == ParseItems(Seen(), index, r.value)
      ensures r.Err? ==> ParseItems(Seen(), old(index), fields) == Err(r.error)
      decreases |tokens| - index, 1
    {
      var start := index;
      assert MarksApart(tokens[start]);
      var value := FieldValue();
      if value.Err? {
        FirstFieldFails(Seen(), start, fields, value.error);
        return Err(value.error);
      }
      FirstFieldParses(Seen(), start, fields, value.value, index);
      return Ok(Add(fields, tokens[start].value, value.value));
    }

    /** A name, a colon, a value and any separators. */
    method FieldValue() returns (r: Result<Value, ParseError>)
      requires Valid() && index < |tokens| && !IsMark(tokens[index].value, '}')
      modifies this
      ensures r.Ok? ==> ParseField(Seen(), old(index)) == Ok((r.value, index))
      ensures r.Err? ==> ParseField(Seen(), old(index)) == Err(r.error)
      decreases |tokens| - index, 0
    {
      var start := index;
      var name := Take(None);
      assert MarksApart(tokens[start]);
      if name.value.kind != Ident || '.' in name.value.value {
        return Err(InvalidField(start));
      }
      var colon := Take(Some(':'));
      if colon.Err? {
        return Err(colon.error);
      }
      var value := ParseOneValue();
      if value.Err? {
        return Err(value.error);
      }
      SkipSeparators();
      return value;
    }

    /** A round of separators; the end of the tokens is left for the next look at them. */
    method SkipSeparators()
      requires index <= |tokens|
      modifies this
      ensures index == AfterSeparators(Seen(), old(index))
    {
      while index < |tokens| && IsSeparator(tokens[index].value)
        invariant index <= |tokens| && AfterSeparators(Seen(), old(index)) == AfterSeparators(Seen(), index)
        decreases |tokens| - index
      {
        index := index + 1;
      }
    }

    method ParseOneValue() returns (r: Result<Value, ParseError>)
      requires Valid()
      modifies this
      ensures r.Ok? ==> ParseValue(Seen(), old(index)) == Ok((r.value, index))
      ensures r.Err? ==> ParseValue(Seen(), old(index)) == Err(r.error)
      decreases |tokens| - index, 1
    {
      var token := Peek();
      if token.Err? {
        return Err(token.error);
      }
      if IsMark(token.value.value, '{') {
        var message := Message();
        if message.Err? {
          return Err(message.error);
        }
        return Ok(Value.Message(message.value));
      }
      var start, t := index, token.value;
      assert MarksApart(t);
      token := Take(None);
      match t.kind {
        case Literal =>
          var text := DecodeLiteral(t.value);
          if text.None? {
            return Err(InvalidLiteral(start));
          }
          return Ok(Text(text.value));
        case Number =>
          return Ok(Value.Number(IntOf(t.value)));
        case Ident =>
          return Ok(NameValue(t.value));
        case _ =>
          return Err(InvalidValue(start));
      }
    }
  }
}
