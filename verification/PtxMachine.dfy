/**
 Removing line comments one byte after the other.

 A machine with four modes reads a source from left to right.  Stripping the lexemes
 of a source leaves what the machine writes, and the scanner reports what stops it.
 */
module PtxMachine {
  import opened Results
  import opened Bytes
  import opened PtxComments

  /** In code, in a literal that this byte closes, in a block comment, or in a line comment. */
  datatype Mode = InCode | InLiteral(quote: Byte) | InBlock | InLine

  /** What the machine writes, and how many line comments it leaves out. */
  type Written = Result<(seq<Byte>, nat), PtxError>

  function Write(bytes: seq<Byte>, comments: nat, more: Written): Written {
    if more.Err? then more else Ok((bytes + more.value.0, comments + more.value.1))
  }

  function AtEnd(mode: Mode): Written {
    match mode
    case InCode => Ok(([], 0))
    case InLiteral(_) => Err(UnterminatedLiteral)
    case InBlock => Err(UnterminatedBlock)
    case InLine => Ok(([], 0))
  }

  function Run(s: seq<Byte>, mode: Mode): Written {
    if s == [] then AtEnd(mode)
    else
      match mode
      case InCode =>
        if [47, 42] <= s then Write([47, 42], 0, Run(s[2..], InBlock))
        else if [47, 47] <= s then Write([], 1, Run(s[2..], InLine))
        else Write([s[0]], 0, Run(s[1..], if s[0] == 34 || s[0] == 39 then InLiteral(s[0]) else InCode))
      case InLiteral(quote) =>
        if s == [92] then Err(UnterminatedEscape)
        else if s[0] == 92 then Write(s[..2], 0, Run(s[2..], mode))
        else Write([s[0]], 0, Run(s[1..], if s[0] == quote then InCode else mode))
      case InBlock =>
        if [42, 47] <= s then Write([42, 47], 0, Run(s[2..], InCode))
        else Write([s[0]], 0, Run(s[1..], InBlock))
      case InLine =>
        if s[0] == 10 then Write([10], 0, Run(s[1..], InCode))
        else Write(if s == [13] || [13, 10] <= s then [13] else [], 0, Run(s[1..], InLine))
  }

  // ---------------------------------------------------------------------------
  // Within a lexeme
  // ---------------------------------------------------------------------------

  /** From `i` to `j` the machine writes these bytes and stays in its mode. */
  ghost predicate Passes(s: seq<Byte>, i: nat, j: nat, bytes: seq<Byte>, mode: Mode)
    requires i <= j <= |s|
  {
    Run(s[i..], mode) == Write(bytes, 0, Run(s[j..], mode))
  }

  lemma {:induction false} PassesNothing(s: seq<Byte>, i: nat, mode: Mode)
    requires i <= |s|
    ensures Passes(s, i, i, [], mode)
  {
    WriteNothing(Run(s[i..], mode));
  }

  lemma WriteNothing(more: Written)
    ensures Write([], 0, more) == more
  {
    if more.Ok? {
      assert [] + more.value.0 == more.value.0;
    }
  }

  /** Whether the bytes begin with a pair. */
  lemma PairInFront(s: seq<Byte>, first: Byte, second: Byte)
    ensures [first, second] <= s <==> PairAt(s, 0, first, second)
  {
  }

  lemma PairShifted(s: seq<Byte>, i: nat, first: Byte, second: Byte)
    requires i <= |s|
    ensures [first, second] <= s[i..] <==> PairAt(s, i, first, second)
  {
    PairInFront(s[i..], first, second);
    assert i < |s| ==> s[i..][0] == s[i];
    assert i + 1 < |s| ==> s[i..][1] == s[i + 1];
  }

  lemma {:induction false} PassesOn(s: seq<Byte>, i: nat, k: nat, j: nat, a: seq<Byte>, b: seq<Byte>, mode: Mode)
    requires i <= k <= j <= |s| && Passes(s, i, k, a, mode) && Passes(s, k, j, b, mode)
    ensures Passes(s, i, j, a + b, mode)
  {
    WriteTwice(a, 0, b, 0, Run(s[j..], mode));
  }

  lemma WriteTwice(a: seq<Byte>, m: nat, b: seq<Byte>, n: nat, more: Written)
    ensures Write(a, m, Write(b, n, more)) == Write(a + b, m + n, more)
  {
    if more.Ok? {
      assert a + (b + more.value.0) == a + b + more.value.0;
    }
  }

  lemma Split(s: seq<Byte>, i: nat, k: nat, j: nat)
    requires i <= k <= j <= |s|
    ensures s[i..j] == s[i..k] + s[k..j]
  {
  }

  lemma {:induction false} BodyPasses(s: seq<Byte>, i: nat, j: nat, quote: Byte)
    requires i <= j <= |s| && QuotedBody(s, i, j, quote)
    ensures Passes(s, i, j, s[i..j], InLiteral(quote))
    decreases j - i
  {
    if i == j {
      PassesNothing(s, i, InLiteral(quote));
      assert s[i..j] == [];
    } else {
      var k := if s[i] == BACKSLASH then i + 2 else i + 1;
      ItemPasses(s, i, quote);
      BodyPasses(s, k, j, quote);
      PassesOn(s, i, k, j, s[i..k], s[k..j], InLiteral(quote));
      Split(s, i, k, j);
    }
  }

  lemma {:induction false} ItemPasses(s: seq<Byte>, i: nat, quote: Byte)
    requires i < |s| && if s[i] == BACKSLASH then i + 2 <= |s| else s[i] != quote
    ensures var k := if s[i] == BACKSLASH then i + 2 else i + 1; Passes(s, i, k, s[i..k], InLiteral(quote))
  {
    var t := s[i..];
    if s[i] == BACKSLASH {
      assert t[..2] == s[i..i + 2] && t[2..] == s[i + 2..] && |t| > 1;
    } else {
      assert [t[0]] == s[i..i + 1] && t[1..] == s[i + 1..];
    }
  }

  lemma {:induction false} BlockPasses(s: seq<Byte>, i: nat, j: nat)
    requires i <= j <= |s| && forall k: nat | i <= k < j :: !PairAt(s, k, STAR, SLASH)
    ensures Passes(s, i, j, s[i..j], InBlock)
    decreases j - i
  {
    if i == j {
      PassesNothing(s, i, InBlock);
      assert s[i..j] == [];
    } else {
      InnerPasses(s, i);
      BlockPasses(s, i + 1, j);
      PassesOn(s, i, i + 1, j, s[i..i + 1], s[i + 1..j], InBlock);
      Split(s, i, i + 1, j);
    }
  }

  lemma {:induction false} InnerPasses(s: seq<Byte>, i: nat)
    requires i < |s| && !PairAt(s, i, STAR, SLASH)
    ensures Passes(s, i, i + 1, s[i..i + 1], InBlock)
  {
    var t := s[i..];
    assert [t[0]] == s[i..i + 1] && t[1..] == s[i + 1..];
    PairShifted(s, i, STAR, SLASH);
  }

  /** What is left of a line comment: the carriage return of its line ending. */
  function LineEnding(s: seq<Byte>, i: nat, j: nat): seq<Byte>
    requires i <= j <= |s|
  {
    if i < j && s[j - 1] == 13 then [13] else []
  }

  lemma {:induction false} LinePasses(s: seq<Byte>, i: nat, j: nat)
    requires i <= j <= |s| && (forall k | i <= k < j :: s[k] != LF) && (j < |s| ==> s[j] == LF)
    ensures Passes(s, i, j, LineEnding(s, i, j), InLine)
    decreases j - i
  {
    if i == j {
      PassesNothing(s, i, InLine);
    } else {
      var here := if i + 1 == j then LineEnding(s, i, j) else [];
      RestPasses(s, i, j);
      LinePasses(s, i + 1, j);
      PassesOn(s, i, i + 1, j, here, LineEnding(s, i + 1, j), InLine);
      assert here + LineEnding(s, i + 1, j) == LineEnding(s, i, j);
    }
  }

  lemma {:induction false} RestPasses(s: seq<Byte>, i: nat, j: nat)
    requires i < j <= |s| && (forall k | i <= k < j :: s[k] != LF) && (j < |s| ==> s[j] == LF)
    ensures Passes(s, i, i + 1, if i + 1 == j then LineEnding(s, i, j) else [], InLine)
  {
    var t := s[i..];
    assert t[1..] == s[i + 1..] && t[0] == s[i];
    PairShifted(s, i, 13, 10);
  }

  // ---------------------------------------------------------------------------
  // From lexeme to lexeme
  // ---------------------------------------------------------------------------

  lemma {:induction false} LiteralRuns(s: seq<Byte>, n: nat)
    requires n <= |s| && IsQuoted(s, 0, n)
    ensures Run(s, InCode) == Write(s[..n], 0, Run(s[n..], InCode))
  {
    var quote, more := s[0], Run(s[n..], InCode);
    LiteralBegins(s);
    BodyPasses(s, 1, n - 1, quote);
    LiteralEnds(s, n, quote);
    WriteTwice(s[1..n - 1], 0, [quote], 0, more);
    WriteTwice([quote], 0, s[1..n - 1] + [quote], 0, more);
    Wrapped(s, 1, n - 1);
    assert s[..1] == [quote] && s[n - 1..n] == [quote];
  }

  lemma Wrapped(s: seq<Byte>, k: nat, n: nat)
    requires k <= n && n + k <= |s|
    ensures s[..n + k] == s[..k] + (s[k..n] + s[n..n + k])
  {
  }

  lemma {:induction false} LiteralBegins(s: seq<Byte>)
    requires s != [] && IsQuote(s[0])
    ensures Run(s, InCode) == Write([s[0]], 0, Run(s[1..], InLiteral(s[0])))
  {
  }

  lemma {:induction false} LiteralEnds(s: seq<Byte>, n: nat, quote: Byte)
    requires 0 < n <= |s| && s[n - 1] == quote && IsQuote(quote)
    ensures Run(s[n - 1..], InLiteral(quote)) == Write([quote], 0, Run(s[n..], InCode))
  {
    var t := s[n - 1..];
    assert t[0] == quote && t[1..] == s[n..];
  }

  lemma {:induction false} BlockRuns(s: seq<Byte>, n: nat)
    requires 4 <= n <= |s| && PairAt(s, 0, SLASH, STAR) && PairAt(s, n - 2, STAR, SLASH)
    requires forall k: nat | 2 <= k < n - 2 :: !PairAt(s, k, STAR, SLASH)
    ensures Run(s, InCode) == Write(s[..n], 0, Run(s[n..], InCode))
  {
    var body, more := s[2..n - 2], Run(s[n..], InCode);
    BlockBegins(s);
    BlockPasses(s, 2, n - 2);
    BlockEnds(s, n);
    WriteTwice(body, 0, [42, 47], 0, more);
    WriteTwice([47, 42], 0, body + [42, 47], 0, more);
    Wrapped(s, 2, n - 2);
    assert s[..2] == [47, 42] && s[n - 2..n] == [42, 47];
  }

  lemma {:induction false} BlockBegins(s: seq<Byte>)
    requires PairAt(s, 0, SLASH, STAR)
    ensures Run(s, InCode) == Write([47, 42], 0, Run(s[2..], InBlock))
  {
    PairInFront(s, 47, 42);
  }

  lemma {:induction false} BlockEnds(s: seq<Byte>, n: nat)
    requires 2 <= n <= |s| && PairAt(s, n - 2, STAR, SLASH)
    ensures Run(s[n - 2..], InBlock) == Write([42, 47], 0, Run(s[n..], InCode))
  {
    assert s[n - 2..][2..] == s[n..];
    PairShifted(s, n - 2, 42, 47);
  }

  lemma {:induction false} LineRuns(s: seq<Byte>, n: nat)
    requires 2 <= n <= |s| && PairAt(s, 0, SLASH, SLASH) && (n < |s| ==> s[n] == LF)
    requires forall k | 0 <= k < n :: s[k] != LF
    ensures Run(s, InCode) == Write(LineEnding(s, 2, n), 1, Run(s[n..], InCode))
  {
    LineBegins(s);
    LinePasses(s, 2, n);
    LineEnds(s[n..]);
    WriteTwice([], 1, LineEnding(s, 2, n), 0, Run(s[n..], InCode));
    assert [] + LineEnding(s, 2, n) == LineEnding(s, 2, n);
  }

  lemma {:induction false} LineBegins(s: seq<Byte>)
    requires PairAt(s, 0, SLASH, SLASH)
    ensures Run(s, InCode) == Write([], 1, Run(s[2..], InLine))
  {
    PairInFront(s, 47, 42);
    PairInFront(s, 47, 47);
  }

  lemma {:induction false} LineEnds(s: seq<Byte>)
    requires s != [] ==> s[0] == LF
    ensures Run(s, InLine) == Run(s, InCode)
  {
  }

  lemma {:induction false} PlainRuns(s: seq<Byte>)
    requires s != [] && !IsQuote(s[0]) && !PairAt(s, 0, SLASH, STAR) && !PairAt(s, 0, SLASH, SLASH)
    ensures Run(s, InCode) == Write([s[0]], 0, Run(s[1..], InCode))
  {
    PairInFront(s, 47, 42);
    PairInFront(s, 47, 47);
  }

  function Counted(l: Lexeme): nat {
    if l.kind == LineComment then 1 else 0
  }

  lemma {:induction false} FirstInFront(ls: seq<Lexeme>, rest: seq<Byte>)
    requires ls != []
    ensures Joined(ls) + rest == ls[0].text + (Joined(ls[1..]) + rest)
    ensures Stripped(ls) == Left(ls[0]) + Stripped(ls[1..])
    ensures Joined(Stripped(ls)) == Emitted(ls[0]) + Joined(Stripped(ls[1..]))
    ensures Comments(ls) == Counted(ls[0]) + Comments(ls[1..])
  {
    AppendIsAssociative(ls[0].text, Joined(ls[1..]), rest);
    EmittedIsLeft(ls[0]);
    JoinedConcat(Left(ls[0]), Stripped(ls[1..]));
  }

  /** The machine is back in code behind a lexeme, having written what is left of it. */
  ghost predicate Passed(l: Lexeme, rest: seq<Byte>) {
    Run(l.text + rest, InCode) == Write(Emitted(l), Counted(l), Run(rest, InCode))
  }

  lemma SameBytes(a: seq<Byte>, b: seq<Byte>)
    ensures (a + b)[..|a|] == a && (a + b)[|a|..] == b
    ensures forall k | 0 <= k < |a| :: (a + b)[k] == a[k]
    ensures b != [] ==> (a + b)[|a|] == b[0]
  {
  }

  lemma {:induction false} QuotedPassed(l: Lexeme, rest: seq<Byte>)
    requires Begins(l, rest) && l.kind == Quoted
    ensures Passed(l, rest)
  {
    SameBytes(l.text, rest);
    QuotedPrefix(l.text, l.text + rest);
    LiteralRuns(l.text + rest, |l.text|);
  }

  lemma {:induction false} BlockPassed(l: Lexeme, rest: seq<Byte>)
    requires Begins(l, rest) && l.kind == Block
    ensures Passed(l, rest)
  {
    var s, n := l.text + rest, |l.text|;
    SameBytes(l.text, rest);
    assert forall k: nat | k + 1 < n :: PairAt(s, k, STAR, SLASH) == PairAt(l.text, k, STAR, SLASH);
    BlockRuns(s, n);
  }

  lemma {:induction false} LinePassed(l: Lexeme, rest: seq<Byte>)
    requires Begins(l, rest) && l.kind == LineComment
    ensures Passed(l, rest)
  {
    var s, n := l.text + rest, |l.text|;
    SameBytes(l.text, rest);
    LineRuns(s, n);
    assert s[n - 1] == l.text[n - 1];
    assert LineEnding(s, 2, n) == Emitted(l);
  }

  lemma {:induction false} PlainPassed(l: Lexeme, rest: seq<Byte>)
    requires Begins(l, rest) && l.kind == Plain
    ensures Passed(l, rest)
  {
    SameBytes(l.text, rest);
    assert l.text == [l.text[0]] && Emitted(l) == l.text;
    PlainRuns(l.text + rest);
  }

  lemma LexemePasses(l: Lexeme, rest: seq<Byte>)
    requires Begins(l, rest)
    ensures Passed(l, rest)
  {
    match l.kind
    case Quoted => QuotedPassed(l, rest);
    case Block => BlockPassed(l, rest);
    case LineComment => LinePassed(l, rest);
    case Plain => PlainPassed(l, rest);
  }

  lemma {:induction false} LexemesRun(ls: seq<Lexeme>, rest: seq<Byte>)
    requires Lexed(ls, rest)
    ensures Run(Joined(ls) + rest, InCode) == Write(Joined(Stripped(ls)), Comments(ls), Run(rest, InCode))
  {
    if ls == [] {
      assert Joined(ls) + rest == rest;
      WriteNothing(Run(rest, InCode));
    } else {
      var l, more := ls[0], ls[1..];
      FirstInFront(ls, rest);
      LexemePasses(l, Joined(more) + rest);
      assert Passed(l, Joined(more) + rest);
      LexemesRun(more, rest);
      WriteTwice(Emitted(l), Counted(l), Joined(Stripped(more)), Comments(more), Run(rest, InCode));
    }
  }

  /** Stripping the lexemes of a source leaves what the machine writes. */
  lemma {:induction false} MachineStrips(source: seq<Byte>, ls: seq<Lexeme>)
    requires Lexes(source, ls)
    ensures Run(source, InCode) == Ok((Joined(Stripped(ls)), Comments(ls)))
  {
    LexemesRun(ls, []);
    assert Joined(ls) + [] == Joined(ls) && Joined(Stripped(ls)) + [] == Joined(Stripped(ls));
  }

  // ---------------------------------------------------------------------------
  // Where there is no lexeme
  // ---------------------------------------------------------------------------

  lemma {:induction false} OpenLiteralStops(s: seq<Byte>, i: nat, error: PtxError)
    requires OpenQuoted(s, i, error)
    ensures Run(s[i..], InCode) == Err(error)
  {
    var quote, end := s[i], if error.UnterminatedEscape? then |s| - 1 else |s|;
    LiteralBegins(s[i..]);
    assert s[i..][1..] == s[i + 1..];
    BodyPasses(s, i + 1, end, quote);
    assert error.UnterminatedEscape? ==> s[end..] == [92];
  }

  lemma {:induction false} OpenBlockStops(s: seq<Byte>, i: nat)
    requires OpenBlock(s, i)
    ensures Run(s[i..], InCode) == Err(UnterminatedBlock)
  {
    BlockBegins(s[i..]);
    assert s[i..][2..] == s[i + 2..];
    BlockPasses(s, i + 2, |s|);
  }

  lemma {:induction false} SeenRuns(source: seq<Byte>, seen: seq<Lexeme>)
    requires Joined(seen) <= source && Lexed(seen, source[|Joined(seen)|..])
    ensures Run(source, InCode)
            == Write(Joined(Stripped(seen)), Comments(seen), Run(source[|Joined(seen)|..], InCode))
  {
    var rest := source[|Joined(seen)|..];
    assert source == Joined(seen) + rest;
    LexemesRun(seen, rest);
  }

  /** Where the scanner stops, the machine stops for the same reason. */
  lemma {:induction false} MachineStops(source: seq<Byte>, seen: seq<Lexeme>, error: PtxError)
    requires StoppedAt(source, seen, error)
    ensures Run(source, InCode) == Err(error)
  {
    var i := |Joined(seen)|;
    SeenRuns(source, seen);
    if error.UnterminatedBlock? {
      OpenBlockStops(source, i);
    } else {
      OpenLiteralStops(source, i, error);
    }
  }
}
