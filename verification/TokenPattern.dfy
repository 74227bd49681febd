/**
 The token pattern as a regular expression, matched by backtracking.

 `Ends` lists, for every place of a text, where a match from there can end, in the
 order in which the engine tries the ends.  The scanner of `RegistryTokens` takes the first.
 */
module TokenPattern {
  import opened Decimals
  import opened Results
  import opened RegistryTokens

  datatype Range = Range(low: char, high: char)

  /** The characters within some of the ranges, or within none. */
  datatype Class = In(ranges: seq<Range>) | NotIn(ranges: seq<Range>)

  predicate Within(ranges: seq<Range>, c: char) {
    exists k :: 0 <= k < |ranges| && ranges[k].low <= c <= ranges[k].high
  }

  predicate Has(chars: Class, c: char) {
    match chars
    case In(ranges) => Within(ranges, c)
    case NotIn(ranges) => !Within(ranges, c)
  }

  /** `Many` tries to go on before it stops, `Few` to stop before it goes on. */
  datatype Regex =
    | One(chars: Class)
    | Both(first: Regex, second: Regex)
    | Either(first: Regex, second: Regex)
    | Maybe(body: Regex)
    | Many(body: Regex)
    | Few(body: Regex)

  // ---------------------------------------------------------------------------
  // The pattern
  // ---------------------------------------------------------------------------

  function Single(c: char): Range {
    Range(c, c)
  }

  function Exactly(c: char): Regex {
    One(In([Single(c)]))
  }

  function OneOrMore(body: Regex): Regex {
    Both(body, Many(body))
  }

  const ANY: Class := NotIn([])
  const SPACES: Class := In([
    Range('\t', '\r'), Range('\U{1C}', ' '), Single('\U{85}'), Single('\U{A0}'), Single('\U{1680}'),
    Range('\U{2000}', '\U{200A}'), Range('\U{2028}', '\U{2029}'), Single('\U{202F}'), Single('\U{205F}'),
    Single('\U{3000}')])
  const DIGITS: Class := In([Range('0', '9')])
  const STARTS: Class := In([Range('A', 'Z'), Range('a', 'z'), Single('_')])
  const PARTS: Class := In([Range('A', 'Z'), Range('a', 'z'), Range('0', '9'), Single('_'), Single('.')])
  const MARKS: Class :=
    In([Single('{'), Single('}'), Single('('), Single(')'), Single(':'), Single('='), Single(';'), Single(',')])

  const SPACE: Regex := OneOrMore(One(SPACES))
  const LINE_COMMENT: Regex := Both(Exactly('/'), Both(Exactly('/'), Many(One(NotIn([Single('\n')])))))
  const CLOSE: Regex := Both(Exactly('*'), Exactly('/'))
  const BLOCK_COMMENT: Regex := Both(Exactly('/'), Both(Exactly('*'), Both(Few(One(ANY)), CLOSE)))
  const ESCAPED: Regex := Both(Exactly('\\'), One(ANY))
  const ORDINARY: Regex := One(NotIn([Single('"'), Single('\\')]))
  const LITERAL: Regex := Both(Exactly('"'), Both(Many(Either(ESCAPED, ORDINARY)), Exactly('"')))
  const NUMBER: Regex := Both(Maybe(Exactly('-')), OneOrMore(One(DIGITS)))
  const IDENT: Regex := Both(One(STARTS), Many(One(PARTS)))

  /** The named alternatives; a character that none of them takes is an error. */
  const ALTERNATIVES: seq<(Kind, Regex)> := [
    (Space, SPACE), (LineComment, LINE_COMMENT), (BlockComment, BLOCK_COMMENT), (Literal, LITERAL),
    (Number, NUMBER), (Ident, IDENT), (Punct, One(MARKS))]

  // ---------------------------------------------------------------------------
  // Matching by backtracking
  // ---------------------------------------------------------------------------

  /** For each place of a text and its end, the ends of the matches that begin there, as they are tried. */
  type Ways = seq<seq<nat>>

  function From(ways: Ways, i: nat): seq<nat> {
    if i < |ways| then ways[i] else []
  }

  /** The ends of matches that begin at one of these places. */
  function FromEach(ways: Ways, starts: seq<nat>): seq<nat> {
    if starts == [] then [] else From(ways, starts[0]) + FromEach(ways, starts[1..])
  }

  /** The ends of repeated matches, longer ones first if the repetition is greedy. */
  function Repeat(ways: Ways, i: nat, greedy: bool): seq<nat>
    decreases |ways| - i, |From(ways, i)| + 1
  {
    var more := RepeatFrom(ways, From(ways, i), i, greedy);
    if greedy then more + [i] else [i] + more
  }

  /** A repetition goes on only where there is progress. */
  function RepeatFrom(ways: Ways, starts: seq<nat>, i: nat, greedy: bool): seq<nat>
    decreases |ways| - i, |starts|
  {
    if starts == [] then []
    else
      (if i < starts[0] < |ways| then Repeat(ways, starts[0], greedy) else [])
      + RepeatFrom(ways, starts[1..], i, greedy)
  }

  function Ends(r: Regex, s: string): (ways: Ways)
    ensures |ways| == |s| + 1
  {
    match r
    case One(chars) => seq(|s| + 1, i requires 0 <= i => if i < |s| && Has(chars, s[i]) then [i + 1] else [])
    case Both(first, second) =>
      var a, b := Ends(first, s), Ends(second, s);
      seq(|s| + 1, i requires 0 <= i < |a| => FromEach(b, a[i]))
    case Either(first, second) =>
      var a, b := Ends(first, s), Ends(second, s);
      seq(|s| + 1, i requires 0 <= i < |a| == |b| => a[i] + b[i])
    case Maybe(body) =>
      var a := Ends(body, s);
      seq(|s| + 1, i requires 0 <= i < |a| => a[i] + [i])
    case Many(body) =>
      var a := Ends(body, s);
      seq(|s| + 1, i requires 0 <= i => Repeat(a, i, true))
    case Few(body) =>
      var a := Ends(body, s);
      seq(|s| + 1, i requires 0 <= i => Repeat(a, i, false))
  }

  function First(ends: seq<nat>): Option<nat> {
    if ends == [] then None else Some(ends[0])
  }

  /** The first alternative from the k-th on that matches at the head of a text, and where its match ends. */
  function FirstMatch(alternatives: seq<(Kind, Regex)>, k: nat, s: string): Option<(Kind, nat)>
    requires k <= |alternatives|
    decreases |alternatives| - k
  {
    if k == |alternatives| then None
    else
      var (kind, r) := alternatives[k];
      var end := First(Ends(r, s)[0]);
      if end.Some? then Some((kind, end.value)) else FirstMatch(alternatives, k + 1, s)
  }

  // ---------------------------------------------------------------------------
  // Ways through a text
  // ---------------------------------------------------------------------------

  lemma FirstOfTwo(a: seq<nat>, b: seq<nat>)
    ensures First(a + b) == if First(a).Some? then First(a) else First(b)
  {
  }

  lemma FromOne(ways: Ways, i: nat)
    ensures FromEach(ways, [i]) == From(ways, i)
  {
  }

  /** The first of several places is tried first. */
  lemma FromOneMore(ways: Ways, i: nat, more: seq<nat>)
    ensures FromEach(ways, [i] + more) == From(ways, i) + FromEach(ways, more)
  {
    assert ([i] + more)[1..] == more;
  }

  /** A last place where nothing matches adds nothing. */
  lemma {:induction false} FromOneLess(ways: Ways, some: seq<nat>, i: nat)
    requires From(ways, i) == []
    ensures FromEach(ways, some + [i]) == FromEach(ways, some)
  {
    if some == [] {
      FromOne(ways, i);
    } else {
      FromOneMore(ways, some[0], some[1..] + [i]);
      assert some + [i] == [some[0]] + (some[1..] + [i]);
      FromOneLess(ways, some[1..], i);
    }
  }

  lemma RepeatFromOne(ways: Ways, next: nat, i: nat, greedy: bool)
    requires i < next < |ways|
    ensures RepeatFrom(ways, [next], i, greedy) == Repeat(ways, next, greedy)
  {
  }

  lemma GoesOn(ways: Ways, i: nat, next: nat, greedy: bool)
    requires i < next < |ways| && ways[i] == [next]
    ensures Repeat(ways, i, greedy) ==
      if greedy then Repeat(ways, next, greedy) + [i] else [i] + Repeat(ways, next, greedy)
  {
    RepeatFromOne(ways, next, i, greedy);
  }

  lemma Stops(ways: Ways, i: nat, greedy: bool)
    requires i < |ways| && ways[i] == []
    ensures Repeat(ways, i, greedy) == [i]
  {
  }

  lemma CharEnds(chars: Class, s: string, i: nat)
    requires i <= |s|
    ensures Ends(One(chars), s)[i] == if i < |s| && Has(chars, s[i]) then [i + 1] else []
  {
  }

  lemma BothEnd(first: Regex, second: Regex, s: string, i: nat)
    requires i <= |s|
    ensures Ends(Both(first, second), s)[i] == FromEach(Ends(second, s), Ends(first, s)[i])
  {
  }

  lemma FewEnd(r: Regex, s: string, i: nat)
    requires i <= |s|
    ensures Ends(Few(r), s)[i] == Repeat(Ends(r, s), i, false)
  {
  }

  lemma ManyEnd(r: Regex, s: string, i: nat)
    requires i <= |s|
    ensures Ends(Many(r), s)[i] == Repeat(Ends(r, s), i, true)
  {
  }

  /** Such a character in front of a pattern. */
  lemma CharInFront(chars: Class, r: Regex, s: string, i: nat)
    requires i <= |s|
    ensures Ends(Both(One(chars), r), s)[i] == if i < |s| && Has(chars, s[i]) then Ends(r, s)[i + 1] else []
  {
    CharEnds(chars, s, i);
    BothEnd(One(chars), r, s, i);
    if i < |s| && Has(chars, s[i]) {
      FromOne(Ends(r, s), i + 1);
    }
  }

  lemma ExactlyInFront(c: char, r: Regex, s: string, i: nat)
    requires i <= |s|
    ensures Ends(Both(Exactly(c), r), s)[i] == if i < |s| && s[i] == c then Ends(r, s)[i + 1] else []
  {
    CharInFront(In([Single(c)]), r, s, i);
    SingleHas(c);
  }

  lemma TwoInFront(a: char, b: char, r: Regex, s: string)
    ensures Ends(Both(Exactly(a), Both(Exactly(b), r)), s)[0] == if PairAt(s, 0, [a, b]) then Ends(r, s)[2] else []
  {
    ExactlyInFront(a, Both(Exactly(b), r), s, 0);
    if s != "" {
      ExactlyInFront(b, r, s, 1);
    }
  }

  lemma ExactlyEnds(c: char, s: string, i: nat)
    requires i <= |s|
    ensures Ends(Exactly(c), s)[i] == if i < |s| && s[i] == c then [i + 1] else []
  {
    CharEnds(In([Single(c)]), s, i);
    SingleHas(c);
  }

  lemma SingleHas(c: char)
    ensures forall x :: Has(In([Single(c)]), x) <==> x == c
  {
    assert [Single(c)][0] == Range(c, c);
  }

  /** One character at a time, while they are such. */
  ghost predicate TakesOne(ways: Ways, s: string, p: char -> bool) {
    |ways| == |s| + 1 && forall i: nat {:trigger TakesOneAt(ways, s, p, i)} | i <= |s| :: TakesOneAt(ways, s, p, i)
  }

  ghost predicate TakesOneAt(ways: Ways, s: string, p: char -> bool, i: nat)
    requires i <= |s| && |ways| == |s| + 1
  {
    ways[i] == if i < |s| && p(s[i]) then [i + 1] else []
  }

  /** The longest run of characters comes first. */
  lemma {:induction false} RunIsFirst(ways: Ways, s: string, i: nat, p: char -> bool)
    requires TakesOne(ways, s, p) && i <= |s|
    ensures First(Repeat(ways, i, true)) == Some(RunEnd(s, i, p))
    decreases |s| - i
  {
    assert TakesOneAt(ways, s, p, i);
    if i < |s| && p(s[i]) {
      GoesOn(ways, i, i + 1, true);
      RunIsFirst(ways, s, i + 1, p);
    } else {
      Stops(ways, i, true);
    }
  }

  lemma LongestIsFirst(chars: Class, s: string, i: nat, p: char -> bool)
    requires i <= |s| && forall c :: Has(chars, c) <==> p(c)
    ensures First(Ends(Many(One(chars)), s)[i]) == Some(RunEnd(s, i, p))
  {
    forall k: nat | k <= |s| ensures TakesOneAt(Ends(One(chars), s), s, p, k) {
      CharEnds(chars, s, k);
    }
    ManyEnd(One(chars), s, i);
    RunIsFirst(Ends(One(chars), s), s, i, p);
  }

  // ---------------------------------------------------------------------------
  // One alternative after the other
  // ---------------------------------------------------------------------------

  lemma SpacesAre()
    ensures forall c :: Has(SPACES, c) <==> IsSpace(c)
  {
    var r := SPACES.ranges;
    forall c ensures Within(r, c) <==> IsSpace(c) {
      if IsSpace(c) {
        assert || r[0].low <= c <= r[0].high || r[1].low <= c <= r[1].high || r[2].low <= c <= r[2].high
               || r[3].low <= c <= r[3].high || r[4].low <= c <= r[4].high || r[5].low <= c <= r[5].high
               || r[6].low <= c <= r[6].high || r[7].low <= c <= r[7].high || r[8].low <= c <= r[8].high
               || r[9].low <= c <= r[9].high;
      }
    }
  }

  lemma StartsAre()
    ensures forall c :: Has(STARTS, c) <==> IsWordStart(c)
  {
    var r := STARTS.ranges;
    assert r[0] == Range('A', 'Z') && r[1] == Range('a', 'z') && r[2] == Single('_');
  }

  lemma PartsAre()
    ensures forall c :: Has(PARTS, c) <==> IsWordPart(c)
  {
    var r := PARTS.ranges;
    assert r[0] == Range('A', 'Z') && r[1] == Range('a', 'z') && r[2] == Range('0', '9');
    assert r[3] == Single('_') && r[4] == Single('.');
  }

  lemma MarksAre()
    ensures forall c :: Has(MARKS, c) <==> IsPunct(c)
  {
    var r, marks := MARKS.ranges, "{}():=;,";
    forall c ensures Within(r, c) <==> c in marks {
      if c in marks {
        var k :| 0 <= k < |marks| && marks[k] == c;
        assert r[k] == Single(c);
      }
    }
  }

  /** The alternatives are tried from the first to the last. */
  lemma NextAlternative(k: nat, kind: Kind, r: Regex, s: string)
    requires k < |ALTERNATIVES| && ALTERNATIVES[k] == (kind, r)
    ensures FirstMatch(ALTERNATIVES, k, s) ==
      var end := First(Ends(r, s)[0]);
      if end.Some? then Some((kind, end.value)) else FirstMatch(ALTERNATIVES, k + 1, s)
  {
  }

  lemma SpaceEnds(s: string)
    ensures FirstMatch(ALTERNATIVES, 0, s) ==
      if s != "" && IsSpace(s[0]) then Some((Space, RunEnd(s, 0, IsSpace))) else FirstMatch(ALTERNATIVES, 1, s)
  {
    NextAlternative(0, Space, SPACE, s);
    SpacesAre();
    CharInFront(SPACES, Many(One(SPACES)), s, 0);
    if s != "" {
      LongestIsFirst(SPACES, s, 1, IsSpace);
    }
  }

  lemma LineGoesOn(s: string, i: nat)
    requires i <= |s|
    ensures First(Ends(Many(One(NotIn([Single('\n')]))), s)[i]) == Some(RunEnd(s, i, NotNewline))
  {
    SingleHas('\n');
    var rest := NotIn([Single('\n')]);
    forall c ensures Has(rest, c) <==> NotNewline(c) {
      assert Has(rest, c) <==> !Has(In([Single('\n')]), c);
    }
    LongestIsFirst(rest, s, i, NotNewline);
  }

  lemma LineCommentEnds(s: string)
    ensures FirstMatch(ALTERNATIVES, 1, s) ==
      if PairAt(s, 0, "//") then Some((LineComment, RunEnd(s, 2, NotNewline))) else FirstMatch(ALTERNATIVES, 2, s)
  {
    NextAlternative(1, LineComment, LINE_COMMENT, s);
    TwoInFront('/', '/', Many(One(NotIn([Single('\n')]))), s);
    if PairAt(s, 0, "//") {
      LineGoesOn(s, 2);
    }
  }

  /** The pattern matches just where a block comment closes. */
  ghost predicate Closes(ways: Ways, s: string) {
    |ways| == |s| + 1 && forall i: nat {:trigger ClosesAt(ways, s, i)} | i <= |s| :: ClosesAt(ways, s, i)
  }

  ghost predicate ClosesAt(ways: Ways, s: string, i: nat)
    requires i <= |s| && |ways| == |s| + 1
  {
    ways[i] == if PairAt(s, i, "*/") then [i + 2] else []
  }

  lemma CloseHere(s: string, i: nat)
    requires i <= |s|
    ensures ClosesAt(Ends(CLOSE, s), s, i)
  {
    BothEnd(Exactly('*'), Exactly('/'), s, i);
    ExactlyEnds('*', s, i);
    if i < |s| {
      FromOne(Ends(Exactly('/'), s), i + 1);
      ExactlyEnds('/', s, i + 1);
    }
  }

  lemma CloseCloses(s: string)
    ensures Closes(Ends(CLOSE, s), s)
  {
    forall i: nat | i <= |s| ensures ClosesAt(Ends(CLOSE, s), s, i) {
      CloseHere(s, i);
    }
  }

  predicate AnyChar(c: char) {
    true
  }

  /** Where a comment whose text goes on at `i` ends. */
  function CommentEnd(s: string, i: nat): Option<nat> {
    if CloseAt(s, i).Some? then Some(CloseAt(s, i).value + 2) else None
  }

  lemma EarlierCloseIsFirst(close: Ways, s: string, i: nat, more: seq<nat>)
    requires Closes(close, s) && i < |s| && First(FromEach(close, more)) == CommentEnd(s, i + 1)
    ensures First(FromEach(close, [i] + more)) == CommentEnd(s, i)
  {
    assert ClosesAt(close, s, i);
    FromOneMore(close, i, more);
    FirstOfTwo(From(close, i), FromEach(close, more));
  }

  lemma AnyGoesOn(any: Ways, s: string, i: nat)
    requires TakesOne(any, s, AnyChar) && i < |s|
    ensures Repeat(any, i, false) == [i] + Repeat(any, i + 1, false)
  {
    assert TakesOneAt(any, s, AnyChar, i);
    GoesOn(any, i, i + 1, false);
  }

  lemma AnyStops(any: Ways, s: string)
    requires TakesOne(any, s, AnyChar)
    ensures Repeat(any, |s|, false) == [|s|]
  {
    assert TakesOneAt(any, s, AnyChar, |s|);
    Stops(any, |s|, false);
  }

  lemma NothingIsLeft(close: Ways, s: string)
    requires Closes(close, s)
    ensures First(FromEach(close, [|s|])) == CommentEnd(s, |s|)
  {
    assert ClosesAt(close, s, |s|);
    FromOne(close, |s|);
  }

  ghost predicate FirstCloses(any: Ways, close: Ways, s: string, i: nat) {
    First(FromEach(close, Repeat(any, i, false))) == CommentEnd(s, i)
  }

  lemma OneCharEarlier(any: Ways, close: Ways, s: string, i: nat)
    requires TakesOne(any, s, AnyChar) && Closes(close, s) && i < |s| && FirstCloses(any, close, s, i + 1)
    ensures FirstCloses(any, close, s, i)
  {
    AnyGoesOn(any, s, i);
    EarlierCloseIsFirst(close, s, i, Repeat(any, i + 1, false));
  }

  lemma AtTheEnd(any: Ways, close: Ways, s: string)
    requires TakesOne(any, s, AnyChar) && Closes(close, s)
    ensures FirstCloses(any, close, s, |s|)
  {
    AnyStops(any, s);
    NothingIsLeft(close, s);
  }

  /** A short comment is tried before longer ones, so it ends where it is closed first. */
  lemma {:induction false} FirstCloseIsFirst(any: Ways, close: Ways, s: string, i: nat)
    requires TakesOne(any, s, AnyChar) && Closes(close, s) && i <= |s|
    ensures FirstCloses(any, close, s, i)
    decreases |s| - i
  {
    if i < |s| {
      FirstCloseIsFirst(any, close, s, i + 1);
      OneCharEarlier(any, close, s, i);
    } else {
      AtTheEnd(any, close, s);
    }
  }

  lemma AnyEnds(s: string, i: nat)
    requires i <= |s|
    ensures Ends(One(ANY), s)[i] == if i < |s| then [i + 1] else []
  {
    CharEnds(ANY, s, i);
  }

  lemma AnyTakesOne(s: string)
    ensures TakesOne(Ends(One(ANY), s), s, AnyChar)
  {
    forall i: nat | i <= |s| ensures TakesOneAt(Ends(One(ANY), s), s, AnyChar, i) {
      AnyEnds(s, i);
    }
  }

  lemma CommentCloses(s: string, i: nat)
    requires i <= |s|
    ensures First(Ends(Both(Few(One(ANY)), CLOSE), s)[i]) == CommentEnd(s, i)
  {
    var any, close := Ends(One(ANY), s), Ends(CLOSE, s);
    CloseCloses(s);
    AnyTakesOne(s);
    FewEnd(One(ANY), s, i);
    BothEnd(Few(One(ANY)), CLOSE, s, i);
    FirstCloseIsFirst(any, close, s, i);
  }

  lemma BlockCommentEnds(s: string)
    ensures FirstMatch(ALTERNATIVES, 2, s) ==
      if PairAt(s, 0, "/*") && CommentEnd(s, 2).Some? then Some((BlockComment, CommentEnd(s, 2).value))
      else FirstMatch(ALTERNATIVES, 3, s)
  {
    NextAlternative(2, BlockComment, BLOCK_COMMENT, s);
    TwoInFront('/', '*', Both(Few(One(ANY)), CLOSE), s);
    if PairAt(s, 0, "/*") {
      CommentCloses(s, 2);
    }
  }

  /** Where the character or escape at `i` of a literal ends. */
  function BodyEnd(s: string, i: nat): (e: seq<nat>)
    requires i <= |s|
    ensures |e| <= 1 && (e != [] ==> i < e[0] <= |s|)
  {
    if i == |s| || s[i] == '"' then []
    else if s[i] != '\\' then [i + 1]
    else if i + 1 < |s| then [i + 2]
    else []
  }

  /** What stands in a literal is taken in one way only. */
  ghost predicate TakesBody(ways: Ways, s: string) {
    |ways| == |s| + 1 && forall i: nat {:trigger TakesBodyAt(ways, s, i)} | i <= |s| :: TakesBodyAt(ways, s, i)
  }

  ghost predicate TakesBodyAt(ways: Ways, s: string, i: nat)
    requires i <= |s| && |ways| == |s| + 1
  {
    ways[i] == BodyEnd(s, i)
  }

  ghost predicate Quotes(ways: Ways, s: string) {
    |ways| == |s| + 1 && forall i: nat {:trigger QuotesAt(ways, s, i)} | i <= |s| :: QuotesAt(ways, s, i)
  }

  ghost predicate QuotesAt(ways: Ways, s: string, i: nat)
    requires i <= |s| && |ways| == |s| + 1
  {
    ways[i] == if i < |s| && s[i] == '"' then [i + 1] else []
  }

  lemma OrdinaryHas(c: char)
    ensures Has(NotIn([Single('"'), Single('\\')]), c) <==> c != '"' && c != '\\'
  {
    var ranges := [Single('"'), Single('\\')];
    assert ranges[0] == Single('"') && ranges[1] == Single('\\');
  }

  lemma OrdinaryEnds(s: string, i: nat)
    requires i <= |s|
    ensures Ends(ORDINARY, s)[i] == if i < |s| && s[i] != '"' && s[i] != '\\' then [i + 1] else []
  {
    CharEnds(NotIn([Single('"'), Single('\\')]), s, i);
    if i < |s| {
      OrdinaryHas(s[i]);
    }
  }

  lemma AnyBehind(any: Ways, s: string, i: nat)
    requires TakesOne(any, s, AnyChar) && i < |s|
    ensures FromEach(any, [i + 1]) == if i + 1 < |s| then [i + 2] else []
  {
    assert TakesOneAt(any, s, AnyChar, i + 1);
    FromOne(any, i + 1);
  }

  lemma EscapedEnds(s: string, i: nat)
    requires i <= |s|
    ensures Ends(ESCAPED, s)[i] == if i + 1 < |s| && s[i] == '\\' then [i + 2] else []
  {
    BothEnd(Exactly('\\'), One(ANY), s, i);
    ExactlyEnds('\\', s, i);
    AnyTakesOne(s);
    if i < |s| {
      AnyBehind(Ends(One(ANY), s), s, i);
    }
  }

  lemma BodyTakesBody(s: string)
    ensures TakesBody(Ends(Either(ESCAPED, ORDINARY), s), s)
  {
    var ways := Ends(Either(ESCAPED, ORDINARY), s);
    forall i: nat | i <= |s| ensures TakesBodyAt(ways, s, i) {
      EscapedEnds(s, i);
      OrdinaryEnds(s, i);
      assert ways[i] == Ends(ESCAPED, s)[i] + Ends(ORDINARY, s)[i];
    }
  }

  lemma QuoteQuotes(s: string)
    ensures Quotes(Ends(Exactly('"'), s), s)
  {
    forall i: nat | i <= |s| ensures QuotesAt(Ends(Exactly('"'), s), s, i) {
      ExactlyEnds('"', s, i);
    }
  }

  lemma QuoteOrNothing(quote: Ways, s: string, i: nat)
    requires Quotes(quote, s) && i <= |s| && BodyEnd(s, i) == []
    ensures First(FromEach(quote, [i])) == LiteralEnd(s, i)
  {
    assert QuotesAt(quote, s, i);
    FromOne(quote, i);
  }

  lemma BodyGoesOn(s: string, i: nat, next: nat)
    requires i <= |s| && BodyEnd(s, i) == [next]
    ensures LiteralEnd(s, i) == LiteralEnd(s, next)
  {
  }

  /** A literal cannot end where its body goes on. */
  lemma LaterQuoteIsFirst(quote: Ways, s: string, i: nat, next: nat, more: seq<nat>)
    requires Quotes(quote, s) && i <= |s| && BodyEnd(s, i) == [next]
    requires First(FromEach(quote, more)) == LiteralEnd(s, next)
    ensures First(FromEach(quote, more + [i])) == LiteralEnd(s, i)
  {
    assert QuotesAt(quote, s, i);
    FromOneLess(quote, more, i);
    BodyGoesOn(s, i, next);
  }

  lemma {:induction false} FirstQuoteIsFirst(body: Ways, quote: Ways, s: string, i: nat)
    requires TakesBody(body, s) && Quotes(quote, s) && i <= |s|
    ensures First(FromEach(quote, Repeat(body, i, true))) == LiteralEnd(s, i)
    decreases |s| - i
  {
    assert TakesBodyAt(body, s, i);
    if BodyEnd(s, i) == [] {
      Stops(body, i, true);
      QuoteOrNothing(quote, s, i);
    } else {
      var next := BodyEnd(s, i)[0];
      FirstQuoteIsFirst(body, quote, s, next);
      GoesOn(body, i, next, true);
      LaterQuoteIsFirst(quote, s, i, next, Repeat(body, next, true));
    }
  }

  lemma LiteralCloses(s: string, i: nat)
    requires i <= |s|
    ensures First(Ends(Both(Many(Either(ESCAPED, ORDINARY)), Exactly('"')), s)[i]) == LiteralEnd(s, i)
  {
    BodyTakesBody(s);
    QuoteQuotes(s);
    var body := Either(ESCAPED, ORDINARY);
    ManyEnd(body, s, i);
    BothEnd(Many(body), Exactly('"'), s, i);
    FirstQuoteIsFirst(Ends(body, s), Ends(Exactly('"'), s), s, i);
  }

  lemma LiteralEnds(s: string)
    ensures FirstMatch(ALTERNATIVES, 3, s) ==
      if s != "" && s[0] == '"' && LiteralEnd(s, 1).Some? then Some((Literal, LiteralEnd(s, 1).value))
      else FirstMatch(ALTERNATIVES, 4, s)
  {
    NextAlternative(3, Literal, LITERAL, s);
    ExactlyInFront('"', Both(Many(Either(ESCAPED, ORDINARY)), Exactly('"')), s, 0);
    if s != "" && s[0] == '"' {
      LiteralCloses(s, 1);
    }
  }

  lemma DigitIs(c: char)
    ensures Has(DIGITS, c) <==> IsDigit(c)
  {
    assert DIGITS.ranges[0] == Range('0', '9');
  }

  lemma MoreDigits(s: string, i: nat)
    requires i <= |s|
    ensures First(Ends(Many(One(DIGITS)), s)[i]) == Some(RunEnd(s, i, IsDigit))
  {
    forall c ensures Has(DIGITS, c) <==> IsDigit(c) {
      DigitIs(c);
    }
    LongestIsFirst(DIGITS, s, i, IsDigit);
  }

  lemma DigitsEnd(s: string, i: nat)
    requires i <= |s|
    ensures First(Ends(OneOrMore(One(DIGITS)), s)[i]) ==
      if i < |s| && IsDigit(s[i]) then Some(RunEnd(s, i + 1, IsDigit)) else None
  {
    CharInFront(DIGITS, Many(One(DIGITS)), s, i);
    if i < |s| {
      DigitIs(s[i]);
      MoreDigits(s, i + 1);
    }
  }

  /** The minus sign is tried first, and then left out. */
  lemma SignedEnds(r: Regex, s: string)
    ensures Ends(Both(Maybe(Exactly('-')), r), s)[0] ==
      (if s != "" && s[0] == '-' then Ends(r, s)[1] else []) + Ends(r, s)[0]
  {
    ExactlyEnds('-', s, 0);
    var ways := Ends(r, s);
    FromOne(ways, 0);
    if s != "" && s[0] == '-' {
      FromOneMore(ways, 1, [0]);
    }
    assert Ends(Maybe(Exactly('-')), s)[0] == if s != "" && s[0] == '-' then [1] + [0] else [0];
  }

  /** Where a number at the head of a text ends. */
  function NumberEnd(s: string): Option<nat> {
    if s == "" then None
    else if IsDigit(s[0]) then Some(RunEnd(s, 1, IsDigit))
    else if s[0] == '-' && |s| > 1 && IsDigit(s[1]) then Some(RunEnd(s, 2, IsDigit))
    else None
  }

  lemma NumberIsFirst(s: string)
    ensures First(Ends(NUMBER, s)[0]) == NumberEnd(s)
  {
    SignedEnds(OneOrMore(One(DIGITS)), s);
    DigitsEnd(s, 0);
    if s != "" {
      DigitsEnd(s, 1);
    }
  }

  lemma NumberEnds(s: string)
    ensures FirstMatch(ALTERNATIVES, 4, s) ==
      if NumberEnd(s).Some? then Some((Number, NumberEnd(s).value)) else FirstMatch(ALTERNATIVES, 5, s)
  {
    NextAlternative(4, Number, NUMBER, s);
    NumberIsFirst(s);
  }

  lemma IdentIsFirst(s: string)
    ensures First(Ends(IDENT, s)[0]) == if s != "" && IsWordStart(s[0]) then Some(RunEnd(s, 1, IsWordPart)) else None
  {
    StartsAre();
    PartsAre();
    CharInFront(STARTS, Many(One(PARTS)), s, 0);
    if s != "" {
      LongestIsFirst(PARTS, s, 1, IsWordPart);
    }
  }

  lemma IdentEnds(s: string)
    ensures FirstMatch(ALTERNATIVES, 5, s) ==
      if s != "" && IsWordStart(s[0]) then Some((Ident, RunEnd(s, 1, IsWordPart))) else FirstMatch(ALTERNATIVES, 6, s)
  {
    NextAlternative(5, Ident, IDENT, s);
    IdentIsFirst(s);
  }

  lemma MarkEnds(s: string)
    ensures FirstMatch(ALTERNATIVES, 6, s) ==
      if s != "" && IsPunct(s[0]) then Some((Punct, 1)) else FirstMatch(ALTERNATIVES, 7, s)
  {
    NextAlternative(6, Punct, One(MARKS), s);
    MarksAre();
    CharEnds(MARKS, s, 0);
  }

  /** The scanner takes, at the head of every text, what the regular expression matches first. */
  lemma ScannerIsPattern(s: string)
    ensures Match(s) == FirstMatch(ALTERNATIVES, 0, s)
  {
    SpaceEnds(s);
    LineCommentEnds(s);
    BlockCommentEnds(s);
    LiteralEnds(s);
    NumberEnds(s);
    IdentEnds(s);
    MarkEnds(s);
  }

  /** A letter or underscore, and then letters, digits, underscores and dots. */
  predicate IsWord(word: string) {
    && word != "" && IsLetter(word[0])
    && forall k | 0 <= k < |word| :: IsLetter(word[k]) || '0' <= word[k] <= '9' || word[k] == '.'
  }

  predicate IsLetter(c: char) {
    'A' <= c <= 'Z' || 'a' <= c <= 'z' || c == '_'
  }

  lemma WordMatches(word: string, rest: string)
    requires IsWord(word)
    ensures Match(word + " " + rest) == Some((Ident, |word|))
  {
    var source := word + " " + rest;
    assert forall k | 0 <= k < |word| :: source[k] == word[k];
    assert source[|word|] == ' ';
    MatchIsComplete(source, |word|, Ident);
  }

  lemma FirstTokenIsMatch(source: string, n: nat, kind: Kind)
    requires Match(source) == Some((kind, n)) && !IsTrivia(kind) && source != "" && TokensIn(source).Ok?
    ensures TokensIn(source).value != [] && TokensIn(source).value[0] == Token(source[..n], 1, kind)
  {
    assert source[0..] == source && source[0..0 + n] == source[..n];
    OneRound(source, MatchTable(source), 0, 1, Piece(kind, source[..n]));
  }

  /** A text that begins with an identifier and a blank has the identifier as its first token. */
  lemma WordIsOneToken(word: string, rest: string)
    requires IsWord(word) && TokensIn(word + " " + rest).Ok?
    ensures TokensIn(word + " " + rest).value != []
    ensures TokensIn(word + " " + rest).value[0] == Token(word, 1, Ident)
  {
    WordMatches(word, rest);
    var source := word + " " + rest;
    assert source[..|word|] == word;
    FirstTokenIsMatch(source, |word|, Ident);
  }
}
