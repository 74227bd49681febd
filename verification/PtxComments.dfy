/**
 Removing the line comments of a PTX source.

 The lexemes are defined as a grammar: quoted literals, block comments, line
 comments and single plain bytes, where what follows a lexeme can decide whether
 it is one.  The scanner is proved to find the one lexing a source has, and
 stripping is then a transformation of lexemes.

 Stripping keeps every other lexeme on its line, and its result has no line
 comment left to strip.
 */
module PtxComments {
  import opened Results
  import opened Bytes

  const LF: Byte := 10
  const CR: Byte := 13
  const DOUBLE_QUOTE: Byte := 34
  const SINGLE_QUOTE: Byte := 39
  const STAR: Byte := 42
  const SLASH: Byte := 47
  const BACKSLASH: Byte := 92
  const SIZE_LIMIT: nat := 64 * 1024 * 1024

  datatype PtxError = Rejected | UnterminatedEscape | UnterminatedLiteral | UnterminatedBlock

  datatype Kind = Quoted | Block | LineComment | Plain

  datatype Lexeme = Lexeme(kind: Kind, text: seq<Byte>)

  // ---------------------------------------------------------------------------
  // The grammar
  // ---------------------------------------------------------------------------

  predicate IsQuote(b: Byte) {
    b == DOUBLE_QUOTE || b == SINGLE_QUOTE
  }

  /** Between `i` and `j` stand escapes of two bytes and bytes that neither escape nor close. */
  ghost predicate QuotedBody(s: seq<Byte>, i: nat, j: nat, quote: Byte)
    requires i <= j <= |s|
    decreases j - i
  {
    || i == j
    || (s[i] == BACKSLASH && i + 2 <= j && QuotedBody(s, i + 2, j, quote))
    || (s[i] != BACKSLASH && s[i] != quote && QuotedBody(s, i + 1, j, quote))
  }

  ghost predicate IsQuoted(s: seq<Byte>, i: nat, j: nat)
    requires j <= |s|
  {
    i + 2 <= j && IsQuote(s[i]) && s[j - 1] == s[i] && QuotedBody(s, i + 1, j - 1, s[i])
  }

  predicate PairAt(s: seq<Byte>, i: nat, first: Byte, second: Byte) {
    i + 1 < |s| && s[i] == first && s[i + 1] == second
  }

  /** A block comment ends at the first closing pair after its opening pair. */
  ghost predicate IsBlock(s: seq<Byte>) {
    && |s| >= 4 && PairAt(s, 0, SLASH, STAR) && PairAt(s, |s| - 2, STAR, SLASH)
    && forall i | 2 <= i < |s| - 2 :: !PairAt(s, i, STAR, SLASH)
  }

  /** The lexeme stands at the head of its own text followed by `rest`. */
  ghost predicate Begins(l: Lexeme, rest: seq<Byte>) {
    match l.kind
    case Quoted => IsQuoted(l.text, 0, |l.text|)
    case Block => IsBlock(l.text)
    case LineComment => PairAt(l.text, 0, SLASH, SLASH) && LF !in l.text && (rest == [] || rest[0] == LF)
    case Plain =>
      && |l.text| == 1 && !IsQuote(l.text[0])
      && (l.text[0] == SLASH && rest != [] ==> rest[0] != SLASH && rest[0] != STAR)
  }

  function Joined(ls: seq<Lexeme>): seq<Byte> {
    if ls == [] then [] else ls[0].text + Joined(ls[1..])
  }

  /** These lexemes stand one after the other before `rest`. */
  ghost predicate Lexed(ls: seq<Lexeme>, rest: seq<Byte>) {
    ls != [] ==> Begins(ls[0], Joined(ls[1..]) + rest) && Lexed(ls[1..], rest)
  }

  ghost predicate Lexes(source: seq<Byte>, ls: seq<Lexeme>) {
    source == Joined(ls) && Lexed(ls, [])
  }

  ghost predicate HasLexing(source: seq<Byte>) {
    exists ls :: Lexes(source, ls)
  }

  predicate Admitted(source: seq<Byte>) {
    source != [] && 0 !in source && |source| < SIZE_LIMIT
  }

  // ---------------------------------------------------------------------------
  // Stripping, on lexemes
  // ---------------------------------------------------------------------------

  /** A removed comment leaves only the carriage return of its line ending. */
  function Left(l: Lexeme): seq<Lexeme> {
    if l.kind != LineComment then [l]
    else if |l.text| > 2 && l.text[|l.text| - 1] == CR then [Lexeme(Plain, [CR])]
    else []
  }

  function Stripped(ls: seq<Lexeme>): seq<Lexeme> {
    if ls == [] then [] else Left(ls[0]) + Stripped(ls[1..])
  }

  function Comments(ls: seq<Lexeme>): nat {
    if ls == [] then 0 else (if ls[0].kind == LineComment then 1 else 0) + Comments(ls[1..])
  }

  function Newlines(s: seq<Byte>): nat {
    multiset(s)[LF]
  }

  // ---------------------------------------------------------------------------
  // A source has one lexing
  // ---------------------------------------------------------------------------

  lemma {:induction false} QuotedBodyEndsOnce(s: seq<Byte>, i: nat, j: nat, k: nat, quote: Byte)
    requires i <= j < |s| && i <= k < |s| && s[j] == quote && s[k] == quote && quote != BACKSLASH
    requires QuotedBody(s, i, j, quote) && QuotedBody(s, i, k, quote)
    ensures j == k
    decreases j - i
  {
    if i < j && i < k {
      QuotedBodyEndsOnce(s, if s[i] == BACKSLASH then i + 2 else i + 1, j, k, quote);
    }
  }

  lemma {:induction false} QuotedBodyGrows(s: seq<Byte>, i: nat, j: nat, k: nat, quote: Byte)
    requires i <= j <= k <= |s| && QuotedBody(s, i, j, quote) && QuotedBody(s, j, k, quote)
    ensures QuotedBody(s, i, k, quote)
    decreases j - i
  {
    if i == j {
    } else {
      QuotedBodyGrows(s, if s[i] == BACKSLASH then i + 2 else i + 1, j, k, quote);
    }
  }

  lemma {:induction false} QuotedBodyIsLocal(s: seq<Byte>, i: nat, j: nat, t: seq<Byte>, shift: nat, quote: Byte)
    requires i <= j <= |s| && j + shift <= |t|
    requires forall k | i <= k < j :: s[k] == t[k + shift]
    ensures QuotedBody(s, i, j, quote) == QuotedBody(t, i + shift, j + shift, quote)
    decreases j - i
  {
    if i == j {
    } else {
      QuotedBodyIsLocal(s, i + 1, j, t, shift, quote);
      if i + 2 <= j {
        QuotedBodyIsLocal(s, i + 2, j, t, shift, quote);
      }
    }
  }

  lemma QuotedIsLocal(s: seq<Byte>, i: nat, j: nat)
    requires i < j <= |s|
    ensures IsQuoted(s, i, j) == IsQuoted(s[i..j], 0, j - i)
  {
    if i + 2 <= j {
      QuotedBodyIsLocal(s[i..j], 1, j - i - 1, s, i, s[i]);
    }
  }

  lemma BeginsIsNonempty(l: Lexeme, rest: seq<Byte>)
    requires Begins(l, rest)
    ensures |l.text| > 0
  {
    match l.kind
    case Quoted => assert |l.text| >= 2;
    case Block => assert |l.text| >= 4;
    case LineComment => assert |l.text| >= 2;
    case Plain =>
  }

  /** Of two lexemes that begin the same bytes, neither can be longer. */
  lemma FirstLexemeIsUnique(l: Lexeme, rest: seq<Byte>, m: Lexeme, other: seq<Byte>)
    requires Begins(l, rest) && Begins(m, other) && l.text + rest == m.text + other
    ensures l == m && rest == other
  {
    var all := l.text + rest;
    assert forall k | 0 <= k < |l.text| :: l.text[k] == all[k];
    assert forall k | 0 <= k < |m.text| :: m.text[k] == all[k];
    assert forall k | 0 <= k < |rest| :: rest[k] == all[|l.text| + k];
    assert forall k | 0 <= k < |other| :: other[k] == all[|m.text| + k];
    SameKind(l, rest, m, other);
    SameLength(l, rest, m, other, all);
    assert l.text == all[..|l.text|] && m.text == all[..|m.text|];
    assert rest == all[|l.text|..] && other == all[|m.text|..];
  }

  lemma SameKind(l: Lexeme, rest: seq<Byte>, m: Lexeme, other: seq<Byte>)
    requires Begins(l, rest) && Begins(m, other) && l.text + rest == m.text + other
    ensures l.kind == m.kind
  {
    var all := l.text + rest;
    assert l.text[0] == all[0] && m.text[0] == all[0];
    assert |all| > 1 ==> all[1] == if |l.text| > 1 then l.text[1] else rest[0];
    assert |all| > 1 ==> all[1] == if |m.text| > 1 then m.text[1] else other[0];
  }

  lemma SameLength(l: Lexeme, rest: seq<Byte>, m: Lexeme, other: seq<Byte>, all: seq<Byte>)
    requires Begins(l, rest) && Begins(m, other) && l.kind == m.kind
    requires all == l.text + rest && all == m.text + other
    requires forall k | 0 <= k < |l.text| :: l.text[k] == all[k]
    requires forall k | 0 <= k < |m.text| :: m.text[k] == all[k]
    ensures |l.text| == |m.text|
  {
    match l.kind
    case Quoted =>
      QuotedPrefix(l.text, all);
      QuotedPrefix(m.text, all);
      SameQuoteEnd(all, |l.text|, |m.text|);
    case Block =>
      BlockEndsFirst(l.text, m.text);
      BlockEndsFirst(m.text, l.text);
    case LineComment =>
      var n, k := |l.text|, |m.text|;
      assert forall i | 0 <= i < n || 0 <= i < k :: all[i] != LF;
      assert n < |all| ==> all[n] == LF;
      assert k < |all| ==> all[k] == LF;
    case Plain =>
  }

  lemma QuotedPrefix(s: seq<Byte>, all: seq<Byte>)
    requires IsQuoted(s, 0, |s|) && |s| <= |all|
    requires forall k | 0 <= k < |s| :: s[k] == all[k]
    ensures IsQuoted(all, 0, |s|)
  {
    QuotedBodyIsLocal(s, 1, |s| - 1, all, 0, all[0]);
  }

  lemma SameQuoteEnd(all: seq<Byte>, n: nat, k: nat)
    requires n <= |all| && k <= |all| && IsQuoted(all, 0, n) && IsQuoted(all, 0, k)
    ensures n == k
  {
    QuotedBodyEndsOnce(all, 1, n - 1, k - 1, all[0]);
  }

  lemma BlockEndsFirst(s: seq<Byte>, t: seq<Byte>)
    requires IsBlock(s) && IsBlock(t)
    requires forall k | 0 <= k < |s| && k < |t| :: s[k] == t[k]
    ensures |t| <= |s|
  {
    assert |s| < |t| ==> PairAt(t, |s| - 2, STAR, SLASH);
  }

  lemma LexedHead(ls: seq<Lexeme>, rest: seq<Byte>)
    requires ls != [] && Lexed(ls, rest)
    ensures Begins(ls[0], Joined(ls[1..]) + rest) && |ls[0].text| > 0
    ensures Joined(ls) + rest == ls[0].text + (Joined(ls[1..]) + rest)
  {
    BeginsIsNonempty(ls[0], Joined(ls[1..]) + rest);
  }

  /** A lexeme already read is the first one of every lexing of the whole. */
  lemma FirstSeen(seen: seq<Lexeme>, rest: seq<Byte>, ls: seq<Lexeme>)
    requires seen != [] && Lexed(seen, rest) && Lexed(ls, []) && Joined(ls) == Joined(seen) + rest
    ensures ls != [] && ls[0] == seen[0]
    ensures Joined(ls[1..]) == Joined(seen[1..]) + rest
  {
    LexedHead(seen, rest);
    assert Joined(ls) != [];
    LexedHead(ls, []);
    assert Joined(ls) + [] == Joined(ls) && Joined(ls[1..]) + [] == Joined(ls[1..]);
    FirstLexemeIsUnique(seen[0], Joined(seen[1..]) + rest, ls[0], Joined(ls[1..]) + []);
  }

  lemma {:induction false} SeenIsPrefix(seen: seq<Lexeme>, rest: seq<Byte>, ls: seq<Lexeme>)
    requires Lexed(seen, rest) && Lexed(ls, []) && Joined(ls) == Joined(seen) + rest
    ensures seen <= ls
    ensures Lexed(ls[|seen|..], []) && Joined(ls[|seen|..]) == rest
  {
    if seen == [] {
      assert ls[0..] == ls && Joined(seen) + rest == rest;
    } else {
      FirstSeen(seen, rest, ls);
      SeenIsPrefix(seen[1..], rest, ls[1..]);
      PrefixInFront(seen, ls);
    }
  }

  lemma PrefixInFront<T>(a: seq<T>, b: seq<T>)
    requires a != [] && b != [] && a[0] == b[0] && a[1..] <= b[1..]
    ensures a <= b && b[1..][|a| - 1..] == b[|a|..]
  {
    assert a == [a[0]] + a[1..] && b == [b[0]] + b[1..];
  }

  /** The lexemes of a source are determined by its bytes. */
  lemma LexingIsUnique(source: seq<Byte>, a: seq<Lexeme>, b: seq<Lexeme>)
    requires Lexes(source, a) && Lexes(source, b)
    ensures a == b
  {
    assert Joined(a) + [] == Joined(a);
    SeenIsPrefix(a, [], b);
    var tail: seq<Lexeme> := b[|a|..];
    if tail != [] {
      BeginsIsNonempty(tail[0], Joined(tail[1..]) + []);
    }
  }

  // ---------------------------------------------------------------------------
  // What stripping keeps
  // ---------------------------------------------------------------------------

  lemma AppendIsAssociative<T>(a: seq<T>, b: seq<T>, c: seq<T>)
    ensures a + (b + c) == a + b + c
  {
  }

  lemma {:induction false} StrippedAppend(ls: seq<Lexeme>, l: Lexeme)
    ensures Joined(ls + [l]) == Joined(ls) + l.text
    ensures Stripped(ls + [l]) == Stripped(ls) + Left(l)
    ensures Comments(ls + [l]) == Comments(ls) + if l.kind == LineComment then 1 else 0
  {
    if ls == [] {
      assert [l][1..] == [];
    } else {
      assert (ls + [l])[1..] == ls[1..] + [l];
      StrippedAppend(ls[1..], l);
      AppendIsAssociative(ls[0].text, Joined(ls[1..]), l.text);
      AppendIsAssociative(Left(ls[0]), Stripped(ls[1..]), Left(l));
    }
  }

  lemma {:induction false} JoinedConcat(a: seq<Lexeme>, b: seq<Lexeme>)
    ensures Joined(a + b) == Joined(a) + Joined(b)
  {
    if a == [] {
      assert a + b == b;
    } else {
      assert (a + b)[1..] == a[1..] + b;
      JoinedConcat(a[1..], b);
    }
  }

  /** No lexeme but a comment looks at more than whether a slash goes on. */
  lemma {:induction false} StrippedIsLexed(ls: seq<Lexeme>, rest: seq<Byte>)
    requires Lexed(ls, rest)
    ensures Lexed(Stripped(ls), rest)
    ensures Comments(Stripped(ls)) == 0
    ensures Stripped(Stripped(ls)) == Stripped(ls)
  {
    if ls == [] {
    } else {
      var head, tail := ls[0], Stripped(ls[1..]);
      StrippedIsLexed(ls[1..], rest);
      if Left(head) != [] {
        var kept := Left(head)[0];
        assert Stripped(ls) == [kept] + tail && Stripped(ls)[1..] == tail;
        if kept == head {
          HeadStays(head, ls[1..], rest);
        }
        assert Left(kept) == [kept];
      } else {
        assert Stripped(ls) == tail;
      }
    }
  }

  lemma HeadStays(head: Lexeme, tail: seq<Lexeme>, rest: seq<Byte>)
    requires head.kind != LineComment && Begins(head, Joined(tail) + rest) && Lexed(tail, rest)
    ensures Begins(head, Joined(Stripped(tail)) + rest)
  {
    if head.kind == Plain && head.text[0] == SLASH && tail != [] {
      assert |tail[0].text| > 0 && (Joined(tail) + rest)[0] == tail[0].text[0];
      assert tail[0].kind != LineComment;
      assert Stripped(tail)[0] == tail[0];
    }
  }

  /**
   Stripping again is the identity: the output lexes as what was kept, holds no
   comment, and, when anything is left, is an admitted source.
   */
  lemma StrippingIsIdempotent(source: seq<Byte>, ls: seq<Lexeme>)
    requires Admitted(source) && Lexes(source, ls)
    ensures var output := Joined(Stripped(ls));
      && Lexes(output, Stripped(ls))
      && Comments(Stripped(ls)) == 0
      && Joined(Stripped(Stripped(ls))) == output
      && (output != [] ==> Admitted(output))
  {
    StrippedIsLexed(ls, []);
    OutputIsSmaller(ls, []);
    assert 0 !in multiset(source);
  }

  lemma {:induction false} OutputIsSmaller(ls: seq<Lexeme>, rest: seq<Byte>)
    requires Lexed(ls, rest)
    ensures |Joined(Stripped(ls))| <= |Joined(ls)|
    ensures multiset(Joined(Stripped(ls))) <= multiset(Joined(ls))
  {
    if ls == [] {
    } else {
      OutputIsSmaller(ls[1..], rest);
      JoinedConcat(Left(ls[0]), Stripped(ls[1..]));
      LeftIsSmaller(ls[0]);
    }
  }

  lemma LeftIsSmaller(l: Lexeme)
    ensures |Joined(Left(l))| <= |l.text|
    ensures multiset(Joined(Left(l))) <= multiset(l.text)
    ensures Left(l) == [l] ==> Joined(Left(l)) == l.text
  {
    if l.kind == LineComment && |l.text| > 2 && l.text[|l.text| - 1] == CR {
      assert CR in multiset(l.text);
      assert Joined(Left(l)) == [CR];
    } else if l.kind != LineComment {
      assert Joined(Left(l)) == l.text;
    }
  }

  lemma {:induction false} NewlinesStay(ls: seq<Lexeme>, rest: seq<Byte>)
    requires Lexed(ls, rest)
    ensures Newlines(Joined(Stripped(ls))) == Newlines(Joined(ls))
  {
    if ls == [] {
    } else {
      NewlinesStay(ls[1..], rest);
      JoinedConcat(Left(ls[0]), Stripped(ls[1..]));
      HeadLines(ls[0], Joined(ls[1..]) + rest);
    }
  }

  lemma {:induction false} FrontIsLexed(a: seq<Lexeme>, b: seq<Lexeme>, rest: seq<Byte>)
    requires Lexed(a + b, rest)
    ensures Lexed(a, Joined(b) + rest)
  {
    if a == [] {
    } else {
      FirstBegins(a, b, rest);
      FrontIsLexed(a[1..], b, rest);
      LexedInFront(a, Joined(b) + rest);
    }
  }

  lemma FirstBegins(a: seq<Lexeme>, b: seq<Lexeme>, rest: seq<Byte>)
    requires a != [] && Lexed(a + b, rest)
    ensures Begins(a[0], Joined(a[1..]) + (Joined(b) + rest)) && Lexed(a[1..] + b, rest)
  {
    assert (a + b)[1..] == a[1..] + b;
    JoinedConcat(a[1..], b);
    AppendIsAssociative(Joined(a[1..]), Joined(b), rest);
  }

  lemma LexedInFront(ls: seq<Lexeme>, rest: seq<Byte>)
    requires ls != [] && Begins(ls[0], Joined(ls[1..]) + rest) && Lexed(ls[1..], rest)
    ensures Lexed(ls, rest)
  {
  }

  lemma {:induction false} StrippedConcat(a: seq<Lexeme>, b: seq<Lexeme>)
    ensures Stripped(a + b) == Stripped(a) + Stripped(b)
  {
    if a == [] {
      assert a + b == b;
    } else {
      assert (a + b)[1..] == a[1..] + b;
      StrippedConcat(a[1..], b);
    }
  }

  /**
   No line number moves: what stays of the lexemes in `a` is the beginning of the
   output, and as many newlines precede its end as before.
   */
  lemma LinesStay(source: seq<Byte>, a: seq<Lexeme>, b: seq<Lexeme>)
    requires Lexes(source, a + b)
    ensures Joined(Stripped(a)) <= Joined(Stripped(a + b)) && Joined(a) <= source
    ensures Newlines(Joined(Stripped(a))) == Newlines(Joined(a))
  {
    FrontIsLexed(a, b, []);
    NewlinesStay(a, Joined(b) + []);
    FrontComesFirst(a, b);
  }

  lemma FrontComesFirst(a: seq<Lexeme>, b: seq<Lexeme>)
    ensures Joined(a) <= Joined(a + b) && Joined(Stripped(a)) <= Joined(Stripped(a + b))
  {
    JoinedConcat(a, b);
    StrippedConcat(a, b);
    JoinedConcat(Stripped(a), Stripped(b));
  }

  lemma HeadLines(l: Lexeme, rest: seq<Byte>)
    requires Begins(l, rest)
    ensures Newlines(Joined(Left(l))) == Newlines(l.text)
  {
    LeftIsSmaller(l);
    if l.kind == LineComment {
      assert LF !in multiset(l.text) && LF !in multiset(Joined(Left(l)));
    }
  }

  // ---------------------------------------------------------------------------
  // The scanner
  // ---------------------------------------------------------------------------

  /** The first index from `from` on that holds the byte, or the end of the source. */
  method FindByte(s: seq<Byte>, from: nat, b: Byte) returns (end: nat)
    requires from <= |s|
    ensures from <= end <= |s| && b !in s[from..end]
    ensures end < |s| ==> s[end] == b
  {
    end := from;
    while end < |s| && s[end] != b
      invariant from <= end <= |s| && b !in s[from..end]
    {
      end := end + 1;
    }
  }

  method FindPair(s: seq<Byte>, from: nat, first: Byte, second: Byte) returns (end: Option<nat>)
    ensures end.Some? ==> from <= end.value && PairAt(s, end.value, first, second)
    ensures forall i: nat | from <= i && (end.Some? ==> i < end.value) :: !PairAt(s, i, first, second)
  {
    var i := from;
    while i + 1 < |s|
      invariant from <= i && forall k: nat | from <= k < i :: !PairAt(s, k, first, second)
    {
      if s[i] == first && s[i + 1] == second {
        return Some(i);
      }
      i := i + 1;
    }
    return None;
  }

  /** The end of the quoted literal at `start`; an error means that the source ends inside it. */
  method ScanQuoted(s: seq<Byte>, start: nat) returns (r: Result<nat, PtxError>)
    requires start < |s| && IsQuote(s[start])
    ensures r.Ok? ==> start < r.value <= |s| && IsQuoted(s, start, r.value)
    ensures r.Err? ==> OpenQuoted(s, start, r.error)
  {
    var quote := s[start];
    var offset := start + 1;
    while offset < |s|
      invariant start < offset <= |s|
      invariant QuotedBody(s, start + 1, offset, quote)
    {
      var b := s[offset];
      if b == BACKSLASH {
        if offset + 1 == |s| {
          return Err(UnterminatedEscape);
        }
        QuotedBodyGrows(s, start + 1, offset, offset + 2, quote);
        offset := offset + 2;
      } else if b == quote {
        return Ok(offset + 1);
      } else {
        QuotedBodyGrows(s, start + 1, offset, offset + 1, quote);
        offset := offset + 1;
      }
    }
    return Err(UnterminatedLiteral);
  }

  /** The source ends in a literal: right behind a backslash, or anywhere else. */
  ghost predicate OpenQuoted(s: seq<Byte>, start: nat, error: PtxError) {
    && start < |s| && IsQuote(s[start])
    && match error
       case UnterminatedEscape => (
         start + 2 <= |s| && s[|s| - 1] == BACKSLASH && QuotedBody(s, start + 1, |s| - 1, s[start]))
       case UnterminatedLiteral => QuotedBody(s, start + 1, |s|, s[start])
       case _ => false
  }

  ghost predicate OpenBlock(s: seq<Byte>, start: nat) {
    PairAt(s, start, SLASH, STAR) && forall i: nat | start + 2 <= i :: !PairAt(s, i, STAR, SLASH)
  }

  /** What the scanner reports about the bytes from `offset` on. */
  ghost predicate Stuck(s: seq<Byte>, offset: nat, error: PtxError) {
    match error
    case Rejected => false
    case UnterminatedBlock => OpenBlock(s, offset)
    case _ => OpenQuoted(s, offset, error)
  }

  lemma {:induction false} BodyStaysOpen(s: seq<Byte>, i: nat, j: nat, k: nat, quote: Byte)
    requires i <= j <= |s| && i <= k < |s| && s[k] == quote && quote != BACKSLASH
    requires QuotedBody(s, i, j, quote) && QuotedBody(s, i, k, quote)
    ensures j <= k
    decreases j - i
  {
    if i < j && i < k {
      BodyStaysOpen(s, if s[i] == BACKSLASH then i + 2 else i + 1, j, k, quote);
    }
  }

  lemma OpenQuotedNeverCloses(s: seq<Byte>, start: nat, error: PtxError)
    requires OpenQuoted(s, start, error)
    ensures forall end: nat | end <= |s| :: !IsQuoted(s, start, end)
  {
    var stop := if error.UnterminatedEscape? then |s| - 1 else |s|;
    forall end: nat | end <= |s| && IsQuoted(s, start, end) ensures stop <= end - 1 {
      BodyStaysOpen(s, start + 1, stop, end - 1, s[start]);
    }
    if error.UnterminatedEscape? {
      assert forall end: nat | end <= |s| && IsQuoted(s, start, end) :: s[end - 1] == s[start] && end == |s|;
    }
  }

  lemma LexemeIsQuoted(s: seq<Byte>, offset: nat, l: Lexeme, rest: seq<Byte>)
    requires offset < |s| && IsQuote(s[offset]) && Begins(l, rest) && s[offset..] == l.text + rest
    ensures offset + |l.text| <= |s| && IsQuoted(s, offset, offset + |l.text|)
  {
    BeginsIsNonempty(l, rest);
    var tail := s[offset..];
    assert forall k | 0 <= k < |l.text| :: l.text[k] == tail[k] == s[offset + k];
    assert l.kind == Quoted;
    QuotedBodyIsLocal(l.text, 1, |l.text| - 1, s, offset, s[offset]);
  }

  lemma LexemeIsBlock(s: seq<Byte>, offset: nat, l: Lexeme, rest: seq<Byte>)
    requires PairAt(s, offset, SLASH, STAR) && Begins(l, rest) && s[offset..] == l.text + rest
    ensures |l.text| >= 4 && PairAt(s, offset + |l.text| - 2, STAR, SLASH)
  {
    BeginsIsNonempty(l, rest);
    var tail := s[offset..];
    assert forall k | 0 <= k < |l.text| :: l.text[k] == tail[k] == s[offset + k];
    assert (l.text + rest)[1] == tail[1] == STAR;
    assert l.kind == Block;
  }

  /** Where the scanner is stuck there is no lexeme. */
  lemma StuckHasNoLexeme(s: seq<Byte>, offset: nat, error: PtxError, l: Lexeme, rest: seq<Byte>)
    requires offset < |s| && Stuck(s, offset, error) && Begins(l, rest)
    ensures s[offset..] != l.text + rest
  {
    if error.UnterminatedBlock? {
      if s[offset..] == l.text + rest {
        LexemeIsBlock(s, offset, l, rest);
      }
    } else {
      OpenQuotedNeverCloses(s, offset, error);
      if s[offset..] == l.text + rest {
        LexemeIsQuoted(s, offset, l, rest);
      }
    }
  }

  // ---------------------------------------------------------------------------
  // The loop
  // ---------------------------------------------------------------------------

  /** The scan's state with `rest` still to be read, after the lexemes in `seen`. */
  ghost predicate Scanned(source: seq<Byte>, seen: seq<Lexeme>, output: seq<Byte>, comments: nat, rest: seq<Byte>) {
    && source == Joined(seen) + rest && Lexed(seen, rest)
    && output == Joined(Stripped(seen)) && comments == Comments(seen)
  }

  lemma {:induction false} LexedAppend(seen: seq<Lexeme>, l: Lexeme, rest: seq<Byte>)
    requires Lexed(seen, l.text + rest) && Begins(l, rest)
    ensures Lexed(seen + [l], rest)
  {
    if seen == [] {
      assert [l][1..] == [] && Joined([]) + rest == rest;
    } else {
      assert (seen + [l])[1..] == seen[1..] + [l];
      LexedAppend(seen[1..], l, rest);
      StrippedAppend(seen[1..], l);
      assert Joined(seen[1..]) + l.text + rest == Joined(seen[1..]) + (l.text + rest);
    }
  }

  /** `here` goes on with the lexeme and then `rest`. */
  ghost predicate Splits(here: seq<Byte>, l: Lexeme, rest: seq<Byte>) {
    here == l.text + rest && Begins(l, rest)
  }

  lemma ScanStep(source: seq<Byte>, seen: seq<Lexeme>, output: seq<Byte>, comments: nat,
          here: seq<Byte>, l: Lexeme, rest: seq<Byte>)
    requires Scanned(source, seen, output, comments, here) && Splits(here, l, rest)
    ensures Scanned(source, seen + [l], output + Joined(Left(l)), comments + (if l.kind == LineComment then 1 else 0),
            rest)
  {
    assert Lexed(seen + [l], rest) by {
      LexedAppend(seen, l, rest);
    }
    OutputStep(seen, l);
    AppendIsAssociative(Joined(seen), l.text, rest);
  }

  lemma OutputStep(seen: seq<Lexeme>, l: Lexeme)
    ensures Joined(seen + [l]) == Joined(seen) + l.text
    ensures Joined(Stripped(seen + [l])) == Joined(Stripped(seen)) + Joined(Left(l))
    ensures Comments(seen + [l]) == Comments(seen) + if l.kind == LineComment then 1 else 0
  {
    StrippedAppend(seen, l);
    JoinedConcat(Stripped(seen), Left(l));
  }

  /** What the loop appends: the text, or the carriage return of a comment's line ending. */
  function Emitted(l: Lexeme): seq<Byte> {
    if l.kind != LineComment then l.text
    else if |l.text| > 2 && l.text[|l.text| - 1] == CR then [CR]
    else []
  }

  /** `l` is the lexeme that stands in the source at `offset`. */
  ghost predicate StandsAt(source: seq<Byte>, offset: nat, l: Lexeme) {
    && offset + |l.text| <= |source|
    && l.text == source[offset..offset + |l.text|]
    && Begins(l, source[offset + |l.text|..])
  }

  /** The scanner stands at `offset` and has accounted for what is before it. */
  ghost predicate ScannedTo(source: seq<Byte>, seen: seq<Lexeme>, output: seq<Byte>, comments: nat, offset: nat) {
    offset <= |source| && Scanned(source, seen, output, comments, source[offset..])
  }

  lemma Round(source: seq<Byte>, seen: seq<Lexeme>, output: seq<Byte>, comments: nat, offset: nat, l: Lexeme)
    requires ScannedTo(source, seen, output, comments, offset) && StandsAt(source, offset, l)
    ensures ScannedTo(source, seen + [l], output + Emitted(l), comments + (if l.kind == LineComment then 1 else 0),
                      offset + |l.text|)
    ensures |l.text| > 0
  {
    var rest := source[offset + |l.text|..];
    StandsSplits(source, offset, l);
    EmittedIsLeft(l);
    ScanStep(source, seen, output, comments, source[offset..], l, rest);
  }

  lemma StandsSplits(source: seq<Byte>, offset: nat, l: Lexeme)
    requires StandsAt(source, offset, l)
    ensures Splits(source[offset..], l, source[offset + |l.text|..]) && |l.text| > 0
  {
    BeginsIsNonempty(l, source[offset + |l.text|..]);
    assert source[offset..] == source[offset..offset + |l.text|] + source[offset + |l.text|..];
  }

  lemma EmittedIsLeft(l: Lexeme)
    ensures Emitted(l) == Joined(Left(l))
  {
    LeftIsSmaller(l);
    assert Joined([Lexeme(Plain, [CR])]) == [CR];
  }

  lemma CommentHere(source: seq<Byte>, offset: nat, end: nat)
    requires PairAt(source, offset, SLASH, SLASH) && offset + 2 <= end <= |source|
    requires LF !in source[offset + 2..end] && (end < |source| ==> source[end] == LF)
    ensures Begins(Lexeme(LineComment, source[offset..end]), source[end..])
  {
    assert source[offset..end] == [SLASH, SLASH] + source[offset + 2..end];
  }

  lemma PlainHere(source: seq<Byte>, offset: nat)
    requires offset < |source|
    requires !IsQuote(source[offset]) && !PairAt(source, offset, SLASH, STAR) && !PairAt(source, offset, SLASH, SLASH)
    ensures source[offset..offset + 1] == [source[offset]]
    ensures Begins(Lexeme(Plain, [source[offset]]), source[offset + 1..])
  {
  }

  lemma BlockHere(source: seq<Byte>, offset: nat, end: nat)
    requires PairAt(source, offset, SLASH, STAR) && offset + 2 <= end && PairAt(source, end, STAR, SLASH)
    requires forall i: nat | offset + 2 <= i < end :: !PairAt(source, i, STAR, SLASH)
    ensures IsBlock(source[offset..end + 2])
  {
    var text := source[offset..end + 2];
    forall i | 2 <= i < |text| - 2 ensures !PairAt(text, i, STAR, SLASH) {
      assert !PairAt(source, offset + i, STAR, SLASH);
    }
  }

  /** Any lexing of the whole goes on with a lexeme where the scan is. */
  lemma NextLexeme(source: seq<Byte>, seen: seq<Lexeme>, rest: seq<Byte>, ls: seq<Lexeme>)
    requires source == Joined(seen) + rest && Lexed(seen, rest) && rest != [] && Lexes(source, ls)
    ensures exists l, after :: Begins(l, after) && rest == l.text + after
  {
    SeenIsPrefix(seen, rest, ls);
    var tail: seq<Lexeme> := ls[|seen|..];
    assert tail != [];
    LexedHead(tail, []);
    assert Joined(tail) + [] == Joined(tail);
  }

  /** No lexing of the whole goes past a place where the scanner is stuck. */
  lemma StuckScan(source: seq<Byte>, seen: seq<Lexeme>, offset: nat, error: PtxError)
    requires offset < |source| && source == Joined(seen) + source[offset..] && Lexed(seen, source[offset..])
    requires Stuck(source, offset, error)
    ensures !HasLexing(source)
    ensures Joined(seen) <= source && |Joined(seen)| == offset
  {
    forall ls | Lexes(source, ls)
      ensures exists l, after :: Begins(l, after) && source[offset..] == l.text + after
    {
      NextLexeme(source, seen, source[offset..], ls);
    }
    forall l, after | Begins(l, after) ensures source[offset..] != l.text + after {
      StuckHasNoLexeme(source, offset, error, l, after);
    }
  }

  /** One round of the loop: the lexeme at `offset`, or why none begins there. */
  method ReadLexeme(source: seq<Byte>, offset: nat) returns (r: Result<Lexeme, PtxError>)
    requires offset < |source|
    ensures r.Ok? ==> StandsAt(source, offset, r.value)
    ensures r.Err? ==> Stuck(source, offset, r.error)
  {
    if IsQuote(source[offset]) {
      var end := ScanQuoted(source, offset);
      if end.Err? {
        return Err(end.error);
      }
      QuotedIsLocal(source, offset, end.value);
      return Ok(Lexeme(Quoted, source[offset..end.value]));
    } else if PairAt(source, offset, SLASH, STAR) {
      var close := FindPair(source, offset + 2, STAR, SLASH);
      if close.None? {
        return Err(UnterminatedBlock);
      }
      BlockHere(source, offset, close.value);
      return Ok(Lexeme(Block, source[offset..close.value + 2]));
    } else if PairAt(source, offset, SLASH, SLASH) {
      var end := FindByte(source, offset + 2, LF);
      CommentHere(source, offset, end);
      return Ok(Lexeme(LineComment, source[offset..end]));
    } else {
      PlainHere(source, offset);
      return Ok(Lexeme(Plain, [source[offset]]));
    }
  }

  /** Reads the next lexeme and accounts for it, or finds that the source has no lexing. */
  method Advance(source: seq<Byte>, ghost seen: seq<Lexeme>, output: seq<Byte>, comments: nat, offset: nat)
    returns (r: Result<Lexeme, PtxError>, written: seq<Byte>, removed: nat)
    requires offset < |source| && ScannedTo(source, seen, output, comments, offset)
    ensures r.Ok? ==> |r.value.text| > 0
    ensures r.Ok? ==> ScannedTo(source, seen + [r.value], written, removed, offset + |r.value.text|)
    ensures r.Err? ==> StoppedAt(source, seen, r.error)
  {
    r := ReadLexeme(source, offset);
    written, removed := output, comments;
    if r.Err? {
      StuckScan(source, seen, offset, r.error);
    } else {
      Round(source, seen, output, comments, offset, r.value);
      written := output + Emitted(r.value);
      removed := comments + if r.value.kind == LineComment then 1 else 0;
    }
  }

  /** The source has no lexing, because none goes on behind these lexemes. */
  ghost predicate StoppedAt(source: seq<Byte>, seen: seq<Lexeme>, error: PtxError) {
    && !HasLexing(source) && Joined(seen) <= source && Lexed(seen, source[|Joined(seen)|..])
    && Stuck(source, |Joined(seen)|, error)
  }

  /**
   The tool's scanner.  It succeeds exactly on the admitted sources that have a
   lexing, and then gives what stripping that lexing gives.  An error says where
   in the source, behind `seen`, no lexeme begins and why.
   */
  method StripLineComments(source: seq<Byte>)
    returns (r: Result<(seq<Byte>, nat), PtxError>, ghost seen: seq<Lexeme>)
    ensures r.Ok? <==> Admitted(source) && HasLexing(source)
    ensures r.Ok? ==> Lexes(source, seen) && r.value == (Joined(Stripped(seen)), Comments(seen))
    ensures r.Err? ==> (r.error.Rejected? <==> !Admitted(source))
    ensures r.Err? && !r.error.Rejected? ==> StoppedAt(source, seen, r.error)
  {
    seen := [];
    if source == [] || 0 in source || |source| >= SIZE_LIMIT {
      return Err(Rejected), seen;
    }
    var output, offset, comments := [], 0, 0;
    ScanBegins(source);
    while offset < |source|
      invariant ScannedTo(source, seen, output, comments, offset)
      decreases |source| - offset
    {
      var lexeme, written, removed := Advance(source, seen, output, comments, offset);
      if lexeme.Err? {
        return Err(lexeme.error), seen;
      }
      output, comments, offset := written, removed, offset + |lexeme.value.text|;
      seen := seen + [lexeme.value];
    }
    ScanEnds(source, seen, output, comments);
    if Newlines(output) != Newlines(source) {
      assert false;
    }
    return Ok((output, comments)), seen;
  }

  lemma ScanBegins(source: seq<Byte>)
    ensures ScannedTo(source, [], [], 0, 0)
  {
    assert source[0..] == source;
  }

  lemma ScanEnds(source: seq<Byte>, seen: seq<Lexeme>, output: seq<Byte>, comments: nat)
    requires Scanned(source, seen, output, comments, [])
    ensures Lexes(source, seen) && HasLexing(source) && Newlines(output) == Newlines(source)
  {
    assert Joined(seen) + [] == Joined(seen);
    NewlinesStay(seen, []);
    assert Lexes(source, seen);
  }
}
