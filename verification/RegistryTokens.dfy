/**
 The tokens of a protobuf registry file.

 `Matches` says what each alternative of the token pattern stands for, and
 `Match` is the pattern as the regular expression engine tries it at the head of
 the remaining text.  The two agree, so a text has at most one reading as pieces,
 and the tokens of that reading are what the loop collects.
 */
module RegistryTokens {
  import opened Decimals
  import opened Results

  datatype Kind = Space | LineComment | BlockComment | Literal | Number | Ident | Punct

  datatype Token = Token(value: string, line: nat, kind: Kind)

  /** A stretch of the text that one alternative of the pattern matched. */
  datatype Piece = Piece(kind: Kind, text: string)

  datatype LexError = UnexpectedCharacter(value: char, line: nat)

  // ---------------------------------------------------------------------------
  // The alternatives of the pattern
  // ---------------------------------------------------------------------------

  /** The characters that `\s` stands for in a Unicode pattern. */
  predicate IsSpace(c: char) {
    var n := c as int;
    || 0x09 <= n <= 0x0D || 0x1C <= n <= 0x20 || n == 0x85 || n == 0xA0 || n == 0x1680
    || 0x2000 <= n <= 0x200A || n == 0x2028 || n == 0x2029 || n == 0x202F || n == 0x205F || n == 0x3000
  }

  predicate IsWordStart(c: char) {
    'A' <= c <= 'Z' || 'a' <= c <= 'z' || c == '_'
  }

  predicate IsWordPart(c: char) {
    IsWordStart(c) || IsDigit(c) || c == '.'
  }

  predicate IsPunct(c: char) {
    c in "{}():=;,"
  }

  /** A trivial piece separates tokens and yields none. */
  predicate IsTrivia(kind: Kind) {
    kind.Space? || kind.LineComment? || kind.BlockComment?
  }

  predicate PairAt(s: string, i: nat, pair: string)
    requires |pair| == 2
  {
    i + 1 < |s| && s[i] == pair[0] && s[i + 1] == pair[1]
  }

  /** Between `i` and `j` stand escapes of two characters and characters that neither escape nor close. */
  ghost predicate LiteralBody(s: string, i: nat, j: nat)
    requires i <= j <= |s|
    decreases j - i
  {
    || i == j
    || (s[i] == '\\' && i + 2 <= j && LiteralBody(s, i + 2, j))
    || (s[i] != '\\' && s[i] != '"' && LiteralBody(s, i + 1, j))
  }

  /** The first `n` characters are a piece of this kind, as long as the pattern makes it. */
  ghost predicate Matches(s: string, n: nat, kind: Kind) {
    && 0 < n <= |s|
    && match kind
       case Space => (forall k | 0 <= k < n :: IsSpace(s[k])) && (n < |s| ==> !IsSpace(s[n]))
       case LineComment => PairAt(s, 0, "//") && n >= 2 && '\n' !in s[..n] && (n < |s| ==> s[n] == '\n')
       case BlockComment => (
         && PairAt(s, 0, "/*") && n >= 4 && PairAt(s, n - 2, "*/")
         && forall k: nat | 2 <= k < n - 2 :: !PairAt(s, k, "*/"))
       case Literal => n >= 2 && s[0] == s[n - 1] == '"' && LiteralBody(s, 1, n - 1)
       case Number => (
         && (IsDigit(s[0]) || (s[0] == '-' && n > 1)) && (forall k | 1 <= k < n :: IsDigit(s[k]))
         && (n < |s| ==> !IsDigit(s[n])))
       case Ident => (
         && IsWordStart(s[0]) && (forall k | 1 <= k < n :: IsWordPart(s[k]))
         && (n < |s| ==> !IsWordPart(s[n])))
       case Punct => n == 1 && IsPunct(s[0])
  }

  // ---------------------------------------------------------------------------
  // The pattern as it is tried
  // ---------------------------------------------------------------------------

  /** The end of the longest run of such characters that starts at `i`. */
  function RunEnd(s: string, i: nat, p: char -> bool): (j: nat)
    requires i <= |s|
    ensures i <= j <= |s|
    decreases |s| - i
  {
    if i < |s| && p(s[i]) then RunEnd(s, i + 1, p) else i
  }

  /** The first place from `i` on where a block comment closes. */
  function CloseAt(s: string, i: nat): (j: Option<nat>)
    ensures j.Some? ==> i <= j.value && j.value + 2 <= |s|
    decreases |s| - i
  {
    if i + 1 >= |s| then None
    else if PairAt(s, i, "*/") then Some(i)
    else CloseAt(s, i + 1)
  }

  /** Where the literal whose body goes on at `i` is closed. */
  function LiteralEnd(s: string, i: nat): (j: Option<nat>)
    ensures j.Some? ==> i < j.value <= |s|
    decreases |s| - i
  {
    if i >= |s| then None
    else if s[i] == '"' then Some(i + 1)
    else LiteralEnd(s, if s[i] == '\\' then i + 2 else i + 1)
  }

  /** The alternative that matches at the head of the text, and how much of it. */
  function Match(s: string): (m: Option<(Kind, nat)>)
    ensures m.Some? ==> 0 < m.value.1 <= |s|
  {
    if s == "" then None
    else if IsSpace(s[0]) then Some((Space, RunEnd(s, 0, IsSpace)))
    else if PairAt(s, 0, "//") then Some((LineComment, RunEnd(s, 2, NotNewline)))
    else if PairAt(s, 0, "/*") then
      var close := CloseAt(s, 2);
      if close.None? then None else Some((BlockComment, close.value + 2))
    else if s[0] == '"' then
      var end := LiteralEnd(s, 1);
      if end.None? then None else Some((Literal, end.value))
    else if IsDigit(s[0]) || (s[0] == '-' && |s| > 1 && IsDigit(s[1])) then Some((Number, RunEnd(s, 1, IsDigit)))
    else if IsWordStart(s[0]) then Some((Ident, RunEnd(s, 1, IsWordPart)))
    else if IsPunct(s[0]) then Some((Punct, 1))
    else None
  }

  lemma {:induction false} RunIsLongest(s: string, i: nat, p: char -> bool)
    requires i <= |s|
    ensures var j := RunEnd(s, i, p); (forall k | i <= k < j :: p(s[k])) && (j < |s| ==> !p(s[j]))
    decreases |s| - i
  {
    if i < |s| && p(s[i]) {
      RunIsLongest(s, i + 1, p);
    }
  }

  lemma {:induction false} CloseIsFirst(s: string, i: nat)
    ensures var j := CloseAt(s, i);
      && (j.Some? ==> PairAt(s, j.value, "*/"))
      && forall k: nat | i <= k && (j.Some? ==> k < j.value) :: !PairAt(s, k, "*/")
    decreases |s| - i
  {
    if i + 1 < |s| && !PairAt(s, i, "*/") {
      CloseIsFirst(s, i + 1);
    }
  }

  lemma {:induction false} LiteralEndCloses(s: string, i: nat)
    requires LiteralEnd(s, i).Some?
    ensures var j := LiteralEnd(s, i).value; s[j - 1] == '"' && LiteralBody(s, i, j - 1)
    decreases |s| - i
  {
    if s[i] != '"' {
      LiteralEndCloses(s, if s[i] == '\\' then i + 2 else i + 1);
    }
  }

  lemma {:induction false} LiteralEndIsFirst(s: string, i: nat, j: nat)
    requires i <= j < |s| && LiteralBody(s, i, j) && s[j] == '"'
    ensures LiteralEnd(s, i) == Some(j + 1)
    decreases j - i
  {
    if i == j {
    } else {
      LiteralEndIsFirst(s, if s[i] == '\\' then i + 2 else i + 1, j);
    }
  }

  predicate NotNewline(c: char) {
    c != '\n'
  }

  lemma MatchIsSound(s: string)
    requires Match(s).Some?
    ensures Matches(s, Match(s).value.1, Match(s).value.0)
  {
    var (kind, n) := Match(s).value;
    match kind
    case Space => RunIsLongest(s, 0, IsSpace);
    case LineComment => RunIsLongest(s, 2, NotNewline);
    case BlockComment => CloseIsFirst(s, 2);
    case Literal => LiteralEndCloses(s, 1);
    case Number => RunIsLongest(s, 1, IsDigit);
    case Ident => RunIsLongest(s, 1, IsWordPart);
    case Punct =>
  }

  lemma MatchIsComplete(s: string, n: nat, kind: Kind)
    requires Matches(s, n, kind)
    ensures Match(s) == Some((kind, n))
  {
    match kind
    case Space => RunIsLongest(s, 0, IsSpace);
    case LineComment => LineCommentIsComplete(s, n);
    case BlockComment => BlockCommentIsComplete(s, n);
    case Literal => LiteralEndIsFirst(s, 1, n - 1);
    case Number => NumberIsComplete(s, n);
    case Ident => IdentIsComplete(s, n);
    case Punct =>
  }

  lemma LineCommentIsComplete(s: string, n: nat)
    requires Matches(s, n, LineComment)
    ensures Match(s) == Some((LineComment, n))
  {
    RunIsLongest(s, 2, NotNewline);
    assert forall k | 0 <= k < n :: s[k] in s[..n];
  }

  lemma BlockCommentIsComplete(s: string, n: nat)
    requires Matches(s, n, BlockComment)
    ensures Match(s) == Some((BlockComment, n))
  {
    CloseIsFirst(s, 2);
  }

  lemma NumberIsComplete(s: string, n: nat)
    requires Matches(s, n, Number)
    ensures Match(s) == Some((Number, n))
  {
    RunIsLongest(s, 1, IsDigit);
  }

  lemma IdentIsComplete(s: string, n: nat)
    requires Matches(s, n, Ident)
    ensures Match(s) == Some((Ident, n))
  {
    RunIsLongest(s, 1, IsWordPart);
  }

  /** What the pattern matches is what the alternative stands for, and nothing else is. */
  lemma MatchIsExact(s: string, n: nat, kind: Kind)
    ensures Match(s) == Some((kind, n)) <==> Matches(s, n, kind)
  {
    if Matches(s, n, kind) {
      MatchIsComplete(s, n, kind);
    } else if Match(s) == Some((kind, n)) {
      MatchIsSound(s);
    }
  }

  // ---------------------------------------------------------------------------
  // Readings
  // ---------------------------------------------------------------------------

  /** What the pattern matches at each offset of a text. */
  type Table = seq<Option<(Kind, nat)>>

  predicate Fits(table: Table, source: string) {
    && |table| == |source|
    && forall i | 0 <= i < |table| && table[i].Some? :: 0 < table[i].value.1 <= |source| - i
  }

  function MatchTable(source: string): (table: Table)
    ensures Fits(table, source)
    ensures forall i | 0 <= i < |source| :: table[i] == Match(source[i..])
  {
    seq(|source|, i requires 0 <= i < |source| => Match(source[i..]))
  }

  function Join(pieces: seq<Piece>): string {
    if pieces == [] then "" else pieces[0].text + Join(pieces[1..])
  }

  /** From `offset` to the end of the text, these are the pieces that the pattern takes. */
  ghost predicate Lexed(source: string, table: Table, offset: nat, pieces: seq<Piece>)
    requires Fits(table, source) && offset <= |source|
    decreases pieces
  {
    if pieces == [] then offset == |source|
    else
      var p, end := pieces[0], offset + |pieces[0].text|;
      && offset < end <= |source| && source[offset..end] == p.text
      && table[offset] == Some((p.kind, |p.text|))
      && Lexed(source, table, end, pieces[1..])
  }

  ghost predicate Reads(source: string, pieces: seq<Piece>) {
    Lexed(source, MatchTable(source), 0, pieces)
  }

  function Newlines(s: string): nat {
    if s == "" then 0 else (if s[0] == '\n' then 1 else 0) + Newlines(s[1..])
  }

  function Produced(p: Piece, line: nat): seq<Token> {
    if IsTrivia(p.kind) then [] else [Token(p.text, line, p.kind)]
  }

  /** The tokens among the pieces, when the first of them stands on this line. */
  function TokensOf(pieces: seq<Piece>, line: nat): seq<Token> {
    if pieces == [] then []
    else Produced(pieces[0], line) + TokensOf(pieces[1..], line + Newlines(pieces[0].text))
  }

  function Prepend(tokens: seq<Token>, more: Result<seq<Token>, LexError>): Result<seq<Token>, LexError> {
    if more.Err? then more else Ok(tokens + more.value)
  }

  /** What the loop makes of the text from `offset` on. */
  function Tokens(source: string, table: Table, offset: nat, line: nat): Result<seq<Token>, LexError>
    requires Fits(table, source) && offset <= |source|
    decreases |source| - offset
  {
    if offset == |source| then Ok([])
    else if table[offset].None? then Err(UnexpectedCharacter(source[offset], line))
    else
      var (kind, n) := table[offset].value;
      var p := Piece(kind, source[offset..offset + n]);
      Prepend(Produced(p, line), Tokens(source, table, offset + n, line + Newlines(p.text)))
  }

  /** The tokens of a whole text. */
  function TokensIn(source: string): Result<seq<Token>, LexError> {
    Tokens(source, MatchTable(source), 0, 1)
  }

  lemma OneMorePiece(source: string, table: Table, offset: nat, line: nat, p: Piece, more: seq<Token>)
    requires Fits(table, source) && offset < |source|
    requires table[offset] == Some((p.kind, |p.text|)) && p.text == source[offset..offset + |p.text|]
    requires Tokens(source, table, offset + |p.text|, line + Newlines(p.text)) == Ok(more)
    ensures Tokens(source, table, offset, line) == Ok(Produced(p, line) + more)
  {
  }

  /** A text that has a reading gives the tokens of that reading. */
  lemma {:induction false} ReadingGivesTokens(source: string, table: Table, offset: nat, pieces: seq<Piece>, line: nat)
    requires Fits(table, source) && offset <= |source| && Lexed(source, table, offset, pieces)
    ensures Tokens(source, table, offset, line) == Ok(TokensOf(pieces, line))
    decreases pieces
  {
    if pieces == [] {
    } else {
      var p := pieces[0];
      var end, next := offset + |p.text|, line + Newlines(p.text);
      ReadingGivesTokens(source, table, end, pieces[1..], next);
      OneMorePiece(source, table, offset, line, p, TokensOf(pieces[1..], next));
    }
  }

  /** Tokens come only from a reading. */
  lemma {:induction false} TokensComeFromReading(source: string, table: Table, offset: nat, line: nat)
    returns (pieces: seq<Piece>)
    requires Fits(table, source) && offset <= |source| && Tokens(source, table, offset, line).Ok?
    ensures Lexed(source, table, offset, pieces)
    decreases |source| - offset
  {
    pieces := [];
    if offset == |source| {
    } else {
      var (kind, n) := table[offset].value;
      var p := Piece(kind, source[offset..offset + n]);
      var rest := TokensComeFromReading(source, table, offset + n, line + Newlines(p.text));
      pieces := [p] + rest;
      assert pieces[1..] == rest;
    }
  }

  /** The pieces of a text are determined by the text. */
  lemma {:induction false} ReadingIsUnique(source: string, table: Table, offset: nat, a: seq<Piece>, b: seq<Piece>)
    requires Fits(table, source) && offset <= |source|
    requires Lexed(source, table, offset, a) && Lexed(source, table, offset, b)
    ensures a == b
    decreases a
  {
    if a == [] {
    } else {
      ReadingIsUnique(source, table, offset + |a[0].text|, a[1..], b[1..]);
    }
  }

  /** The pieces are the text, cut up. */
  lemma {:induction false} PiecesAreTheText(source: string, table: Table, offset: nat, pieces: seq<Piece>)
    requires Fits(table, source) && offset <= |source| && Lexed(source, table, offset, pieces)
    ensures Join(pieces) == source[offset..]
    decreases pieces
  {
    if pieces == [] {
    } else {
      var end := offset + |pieces[0].text|;
      PiecesAreTheText(source, table, end, pieces[1..]);
      assert source[offset..] == source[offset..end] + source[end..];
    }
  }

  /** The pattern takes this piece where it stands before those behind it. */
  ghost predicate TakenAt(pieces: seq<Piece>, k: nat)
    requires k < |pieces|
  {
    Match(Join(pieces[k..])) == Some((pieces[k].kind, |pieces[k].text|))
  }

  ghost predicate AllTaken(pieces: seq<Piece>) {
    forall k: nat {:trigger TakenAt(pieces, k)} | k < |pieces| :: TakenAt(pieces, k)
  }

  lemma TakenInFront(p: Piece, more: seq<Piece>)
    requires AllTaken(more) && Match(p.text + Join(more)) == Some((p.kind, |p.text|))
    ensures AllTaken([p] + more) && Join([p] + more) == p.text + Join(more)
  {
    var all := [p] + more;
    assert all[1..] == more;
    forall k: nat | k < |all| ensures TakenAt(all, k) {
      if k > 0 {
        assert all[k..] == more[k - 1..] && TakenAt(more, k - 1);
      } else {
        assert all[k..] == all;
      }
    }
  }

  lemma TakenBehind(pieces: seq<Piece>)
    requires AllTaken(pieces) && pieces != []
    ensures AllTaken(pieces[1..])
  {
    var rest := pieces[1..];
    forall k: nat | k < |rest| ensures TakenAt(rest, k) {
      assert rest[k..] == pieces[k + 1..] && TakenAt(pieces, k + 1);
    }
  }

  ghost predicate EntryMatches(source: string, table: Table, offset: nat)
    requires Fits(table, source) && offset < |source|
  {
    table[offset] == Match(source[offset..])
  }

  ghost predicate IsMatchTable(source: string, table: Table) {
    Fits(table, source)
    && forall offset: nat {:trigger EntryMatches(source, table, offset)} | offset < |source| ::
         EntryMatches(source, table, offset)
  }

  lemma MatchTableIs(source: string)
    ensures IsMatchTable(source, MatchTable(source))
  {
    forall offset: nat | offset < |source| ensures EntryMatches(source, MatchTable(source), offset) {
    }
  }

  /** A text cut into pieces that are taken where they stand is read as those pieces. */
  lemma {:induction false} CutsAreLexed(source: string, table: Table, offset: nat, pieces: seq<Piece>)
    requires IsMatchTable(source, table) && offset <= |source| && source[offset..] == Join(pieces) && AllTaken(pieces)
    ensures Lexed(source, table, offset, pieces)
    decreases pieces
  {
    if pieces == [] {
    } else {
      FirstIsCut(source, table, offset, pieces);
      TakenBehind(pieces);
      CutsAreLexed(source, table, offset + |pieces[0].text|, pieces[1..]);
      PieceInFrontIsLexed(source, table, offset, pieces);
    }
  }

  /** The piece is cut from the text at this offset, by the pattern. */
  ghost predicate CutAt(source: string, table: Table, offset: nat, p: Piece)
    requires Fits(table, source)
  {
    var end := offset + |p.text|;
    && offset < end <= |source| && source[offset..end] == p.text && table[offset] == Some((p.kind, |p.text|))
  }

  lemma FirstIsCut(source: string, table: Table, offset: nat, pieces: seq<Piece>)
    requires IsMatchTable(source, table) && offset <= |source| && source[offset..] == Join(pieces)
    requires AllTaken(pieces) && pieces != []
    ensures CutAt(source, table, offset, pieces[0])
    ensures source[offset + |pieces[0].text|..] == Join(pieces[1..])
  {
    assert pieces[0..] == pieces && TakenAt(pieces, 0);
    HeadIsTaken(source, table, offset, pieces[0], Join(pieces[1..]));
  }

  lemma HeadIsTaken(source: string, table: Table, offset: nat, p: Piece, rest: string)
    requires IsMatchTable(source, table) && offset <= |source| && source[offset..] == p.text + rest
    requires Match(p.text + rest) == Some((p.kind, |p.text|))
    ensures CutAt(source, table, offset, p) && source[offset + |p.text|..] == rest
  {
    var end := offset + |p.text|;
    assert EntryMatches(source, table, offset);
    assert source[offset..end] == source[offset..][..|p.text|];
    assert source[end..] == source[offset..][|p.text|..];
  }

  lemma PieceInFrontIsLexed(source: string, table: Table, offset: nat, pieces: seq<Piece>)
    requires Fits(table, source) && pieces != [] && CutAt(source, table, offset, pieces[0])
    requires Lexed(source, table, offset + |pieces[0].text|, pieces[1..])
    ensures Lexed(source, table, offset, pieces)
  {
  }

  lemma {:induction false} NewlinesConcat(a: string, b: string)
    ensures Newlines(a + b) == Newlines(a) + Newlines(b)
  {
    if a == "" {
      assert a + b == b;
    } else {
      assert (a + b)[1..] == a[1..] + b;
      NewlinesConcat(a[1..], b);
    }
  }

  function LinesIn(pieces: seq<Piece>): nat {
    if pieces == [] then 0 else Newlines(pieces[0].text) + LinesIn(pieces[1..])
  }

  lemma {:induction false} LinesAreNewlines(pieces: seq<Piece>)
    ensures LinesIn(pieces) == Newlines(Join(pieces))
  {
    if pieces == [] {
    } else {
      LinesAreNewlines(pieces[1..]);
      NewlinesConcat(pieces[0].text, Join(pieces[1..]));
    }
  }

  ghost predicate IsConcat<T>(all: seq<T>, front: seq<T>, back: seq<T>) {
    all == front + back
  }

  lemma PartsConcat<T>(all: seq<T>, front: seq<T>, a: seq<T>, rest: seq<T>, b: seq<T>, c: seq<T>)
    requires IsConcat(all, a, rest) && IsConcat(front, a, b) && IsConcat(rest, b, c)
    ensures IsConcat(all, front, c)
  {
  }

  lemma FirstOfConcat(a: seq<Piece>, b: seq<Piece>, line: nat)
    requires a != []
    ensures var next := line + Newlines(a[0].text);
      && IsConcat(TokensOf(a + b, line), Produced(a[0], line), TokensOf(a[1..] + b, next))
      && IsConcat(TokensOf(a, line), Produced(a[0], line), TokensOf(a[1..], next))
      && line + LinesIn(a) == next + LinesIn(a[1..])
  {
    assert (a + b)[1..] == a[1..] + b;
  }

  lemma {:induction false} TokensOfConcat(a: seq<Piece>, b: seq<Piece>, line: nat)
    ensures IsConcat(TokensOf(a + b, line), TokensOf(a, line), TokensOf(b, line + LinesIn(a)))
  {
    if a == [] {
      assert a + b == b;
    } else {
      var next := line + Newlines(a[0].text);
      FirstOfConcat(a, b, line);
      TokensOfConcat(a[1..], b, next);
      PartsConcat(TokensOf(a + b, line), TokensOf(a, line), Produced(a[0], line), TokensOf(a[1..] + b, next),
                  TokensOf(a[1..], next), TokensOf(b, line + LinesIn(a)));
    }
  }

  lemma AppendIsAssociative<T>(a: seq<T>, b: seq<T>, c: seq<T>)
    ensures a + (b + c) == a + b + c
  {
  }

  /** The line of a token is one plus the newlines in front of it. */
  lemma TokenLine(source: string, before: seq<Piece>, p: Piece, after: seq<Piece>)
    requires Reads(source, before + [p] + after) && !IsTrivia(p.kind)
    ensures var index, tokens := |TokensOf(before, 1)|, Tokens(source, MatchTable(source), 0, 1);
      tokens.Ok? && index < |tokens.value| && tokens.value[index] == Token(p.text, 1 + Newlines(Join(before)), p.kind)
    ensures Join(before + [p]) <= source
  {
    ReadingGivesTokens(source, MatchTable(source), 0, before + [p] + after, 1);
    TokenAmong(before, p, after);
    PiecesAreTheText(source, MatchTable(source), 0, before + [p] + after);
    JoinConcat(before + [p], after);
  }

  lemma FirstToken(p: Piece, after: seq<Piece>, line: nat)
    requires !IsTrivia(p.kind)
    ensures var tokens := TokensOf([p] + after, line); tokens != [] && tokens[0] == Token(p.text, line, p.kind)
  {
  }

  lemma TokenAmong(before: seq<Piece>, p: Piece, after: seq<Piece>)
    requires !IsTrivia(p.kind)
    ensures var index, tokens := |TokensOf(before, 1)|, TokensOf(before + [p] + after, 1);
      index < |tokens| && tokens[index] == Token(p.text, 1 + Newlines(Join(before)), p.kind)
  {
    var line := 1 + Newlines(Join(before));
    assert before + [p] + after == before + ([p] + after);
    LinesAreNewlines(before);
    TokensOfConcat(before, [p] + after, 1);
    FirstToken(p, after, line);
  }

  lemma {:induction false} JoinConcat(a: seq<Piece>, b: seq<Piece>)
    ensures Join(a + b) == Join(a) + Join(b)
  {
    if a == [] {
      assert a + b == b;
    } else {
      assert (a + b)[1..] == a[1..] + b;
      JoinConcat(a[1..], b);
    }
  }

  /** With these tokens in hand, what the text from `offset` on makes of them. */
  function Rest(source: string, table: Table, tokens: seq<Token>, offset: nat, line: nat): Result<seq<Token>, LexError>
    requires Fits(table, source) && offset <= |source|
  {
    Prepend(tokens, Tokens(source, table, offset, line))
  }

  /** With these tokens in hand, the rest of the text from `offset` on makes up the result. */
  ghost predicate Continues(source: string, table: Table, tokens: seq<Token>, offset: nat, line: nat) {
    && Fits(table, source) && offset <= |source|
    && Tokens(source, table, 0, 1) == Rest(source, table, tokens, offset, line)
  }

  lemma RoundContinues(source: string, table: Table, tokens: seq<Token>, offset: nat, line: nat, p: Piece)
    requires Continues(source, table, tokens, offset, line) && offset < |source|
    requires table[offset] == Some((p.kind, |p.text|)) && p.text == source[offset..offset + |p.text|]
    ensures Continues(source, table, tokens + Produced(p, line), offset + |p.text|, line + Newlines(p.text))
  {
    RestStays(source, table, tokens, offset, line, p);
  }

  lemma RestStays(source: string, table: Table, tokens: seq<Token>, offset: nat, line: nat, p: Piece)
    requires Fits(table, source) && offset < |source|
    requires table[offset] == Some((p.kind, |p.text|)) && p.text == source[offset..offset + |p.text|]
    ensures Rest(source, table, tokens, offset, line)
            == Rest(source, table, tokens + Produced(p, line), offset + |p.text|, line + Newlines(p.text))
  {
    OneRound(source, table, offset, line, p);
    PrependTwice(tokens, Tokens(source, table, offset, line), Produced(p, line),
                 Tokens(source, table, offset + |p.text|, line + Newlines(p.text)));
  }

  lemma OneRound(source: string, table: Table, offset: nat, line: nat, p: Piece)
    requires Fits(table, source) && offset < |source|
    requires table[offset] == Some((p.kind, |p.text|)) && p.text == source[offset..offset + |p.text|]
    ensures Tokens(source, table, offset, line) ==
      Prepend(Produced(p, line), Tokens(source, table, offset + |p.text|, line + Newlines(p.text)))
  {
  }

  lemma EndOrError(source: string, table: Table, tokens: seq<Token>, offset: nat, line: nat)
    requires Continues(source, table, tokens, offset, line)
    ensures offset == |source| ==> Tokens(source, table, 0, 1) == Ok(tokens)
    ensures offset < |source| && table[offset].None?
            ==> Tokens(source, table, 0, 1) == Err(UnexpectedCharacter(source[offset], line))
  {
    assert tokens + [] == tokens;
  }

  /** The tokenizer, which asks the pattern at one offset after the other.  Every round takes at least one character. */
  method Tokenize(source: string, table: Table) returns (r: Result<seq<Token>, LexError>)
    requires Fits(table, source)
    ensures r == Tokens(source, table, 0, 1)
  {
    var tokens: seq<Token>, line: nat, offset := [], 1, 0;
    PrependNothing(Tokens(source, table, 0, 1));
    while offset < |source|
      invariant Continues(source, table, tokens, offset, line)
      decreases |source| - offset
    {
      if table[offset].None? {
        EndOrError(source, table, tokens, offset, line);
        return Err(UnexpectedCharacter(source[offset], line));
      }
      var (kind, n) := table[offset].value;
      var p := Piece(kind, source[offset..offset + n]);
      RoundContinues(source, table, tokens, offset, line, p);
      tokens := tokens + if IsTrivia(kind) then [] else [Token(p.text, line, kind)];
      line := line + Newlines(p.text);
      offset := offset + n;
    }
    EndOrError(source, table, tokens, offset, line);
    return Ok(tokens);
  }

  lemma PrependNothing(more: Result<seq<Token>, LexError>)
    ensures Prepend([], more) == more
  {
    if more.Ok? {
      assert [] + more.value == more.value;
    }
  }

  lemma PrependTwice(a: seq<Token>, rest: Result<seq<Token>, LexError>, b: seq<Token>,
          more: Result<seq<Token>, LexError>)
    requires rest == Prepend(b, more)
    ensures Prepend(a, rest) == Prepend(a + b, more)
  {
    if more.Ok? {
      assert a + (b + more.value) == a + b + more.value;
    }
  }
}
