/**
 What the tokenizer's tables say, in terms of the lines of the character database and
 the decompositions alone.
 */
module UnicodeLaws {
  import opened Results
  import opened UnicodeRanges

  /** The line before `k` is a First line; the range of a Last line begins with its code. */
  ghost predicate FollowsFirst(lines: seq<Line>, k: nat) {
    0 < k < |lines| && lines[k - 1].isFirst
  }

  /** Line `k` is for the code point: it is for its own alone, or it ends the range that the line before it begins. */
  ghost predicate IsFor(lines: seq<Line>, k: nat, c: nat) {
    k < |lines| && !lines[k].isFirst &&
    if lines[k].isLast then FollowsFirst(lines, k) && lines[k - 1].code <= c <= lines[k].code
    else c == lines[k].code
  }

  /** No range ends before it begins. */
  ghost predicate RangesAscend(lines: seq<Line>) {
    forall k: nat | k < |lines| && lines[k].isLast && FollowsFirst(lines, k) :: lines[k - 1].code <= lines[k].code
  }

  ghost predicate LineOfKind(lines: seq<Line>, c: nat, kind: nat) {
    exists k: nat :: IsFor(lines, k, c) && lines[k].kind == kind
  }

  ghost predicate LineOfWord(lines: seq<Line>, c: nat) {
    exists k: nat :: IsFor(lines, k, c) && lines[k].isWord
  }

  /** A Last line that is for a table, and has no First line. */
  ghost predicate HasNoBeginning(lines: seq<Line>, k: nat) {
    && k < |lines| && !lines[k].isFirst && lines[k].isLast && !FollowsFirst(lines, k)
    && (lines[k].kind != 0 || lines[k].isWord)
  }

  ghost predicate SpanOfWord(spans: seq<Span>, c: nat) {
    exists k :: 0 <= k < |spans| && spans[k].low <= c <= spans[k].high && spans[k].isWord
  }

  // ---------------------------------------------------------------------------
  // One more line
  // ---------------------------------------------------------------------------

  lemma OneMoreIsFor(lines: seq<Line>, l: Line, k: nat, c: nat)
    ensures k < |lines| ==> (IsFor(lines + [l], k, c) <==> IsFor(lines, k, c))
    ensures k < |lines| ==> (HasNoBeginning(lines + [l], k) <==> HasNoBeginning(lines, k))
    ensures k > |lines| ==> !IsFor(lines + [l], k, c)
  {
    var all := lines + [l];
    if 0 < k < |lines| {
      assert all[k] == lines[k] && all[k - 1] == lines[k - 1];
    }
  }

  lemma OneMoreOfKind(lines: seq<Line>, l: Line, c: nat, kind: nat)
    ensures LineOfKind(lines + [l], c, kind)
      <==> LineOfKind(lines, c, kind) || (IsFor(lines + [l], |lines|, c) && l.kind == kind)
  {
    var all := lines + [l];
    if k: nat :| IsFor(lines, k, c) && lines[k].kind == kind {
      OneMoreIsFor(lines, l, k, c);
      assert all[k] == lines[k];
    }
    if k: nat :| IsFor(all, k, c) && all[k].kind == kind {
      OneMoreIsFor(lines, l, k, c);
    }
    assert all[|lines|] == l;
  }

  lemma OneMoreOfWord(lines: seq<Line>, l: Line, c: nat)
    ensures LineOfWord(lines + [l], c) <==> LineOfWord(lines, c) || (IsFor(lines + [l], |lines|, c) && l.isWord)
  {
    var all := lines + [l];
    if k: nat :| IsFor(lines, k, c) && lines[k].isWord {
      OneMoreIsFor(lines, l, k, c);
      assert all[k] == lines[k];
    }
    if k: nat :| IsFor(all, k, c) && all[k].isWord {
      OneMoreIsFor(lines, l, k, c);
    }
    assert all[|lines|] == l;
  }

  lemma OneMoreSpanOfWord(spans: seq<Span>, s: Span, c: nat)
    ensures SpanOfWord(spans + [s], c) <==> SpanOfWord(spans, c) || (s.low <= c <= s.high && s.isWord)
  {
    var more := spans + [s];
    if SpanOfWord(spans, c) {
      var k :| 0 <= k < |spans| && spans[k].low <= c <= spans[k].high && spans[k].isWord;
      assert more[k] == spans[k];
    }
    assert more[|spans|] == s;
  }

  /** Which First line waits behind these lines. */
  ghost predicate Waits(lines: seq<Line>, first: Option<nat>) {
    first == if lines != [] && lines[|lines| - 1].isFirst then Some(lines[|lines| - 1].code) else None
  }

  ghost predicate KindsAgree(lines: seq<Line>, spans: seq<Span>) {
    forall c: nat, kind: nat :: kind != 0 ==> (SpanHasKind(spans, c, kind) <==> LineOfKind(lines, c, kind))
  }

  ghost predicate WordsAgree(lines: seq<Line>, spans: seq<Span>) {
    forall c: nat :: SpanOfWord(spans, c) <==> LineOfWord(lines, c)
  }

  /** A reading says what its lines say. */
  ghost predicate Reads(lines: seq<Line>, reading: Reading) {
    Waits(lines, reading.first) && KindsAgree(lines, reading.spans) && WordsAgree(lines, reading.spans)
  }

  lemma ReadOneMore(lines: seq<Line>, l: Line, before: Reading)
    requires Reads(lines, before) && ReadLine(before, l).Some?
    ensures Reads(lines + [l], ReadLine(before, l).value)
  {
    var all, after := lines + [l], ReadLine(before, l).value;
    assert all[|lines|] == l && (lines != [] ==> all[|lines| - 1] == lines[|lines| - 1]);
    forall c: nat, kind: nat | kind != 0 ensures SpanHasKind(after.spans, c, kind) <==> LineOfKind(all, c, kind) {
      OneMoreOfKind(lines, l, c, kind);
      if after.spans != before.spans {
        SpanAppend(before.spans, after.spans[|before.spans|], c, kind);
      }
    }
    forall c: nat ensures SpanOfWord(after.spans, c) <==> LineOfWord(all, c) {
      OneMoreOfWord(lines, l, c);
      if after.spans != before.spans {
        OneMoreSpanOfWord(before.spans, after.spans[|before.spans|], c);
      }
    }
  }

  lemma FailsOneMore(lines: seq<Line>, l: Line, before: Reading)
    requires Waits(lines, before.first)
    ensures ReadLine(before, l).None? <==> HasNoBeginning(lines + [l], |lines|)
  {
  }

  /** Reading the lines fails exactly at a Last line without its beginning, and otherwise says what the lines say. */
  lemma {:induction false} ReadMeans(lines: seq<Line>)
    ensures Read(lines).None? <==> exists k: nat :: HasNoBeginning(lines, k)
    ensures Read(lines).Some? ==> Reads(lines, Read(lines).value)
  {
    if lines == [] {
    } else {
      var before, l := lines[..|lines| - 1], lines[|lines| - 1];
      assert lines == before + [l];
      ReadMeans(before);
      if k: nat :| HasNoBeginning(before, k) {
        OneMoreIsFor(before, l, k, 0);
      }
      if k: nat :| HasNoBeginning(lines, k) && k < |before| {
        OneMoreIsFor(before, l, k, 0);
        assert HasNoBeginning(before, k);
      }
      if Read(before).Some? {
        FailsOneMore(before, l, Read(before).value);
        if ReadLine(Read(before).value, l).Some? {
          ReadOneMore(before, l, Read(before).value);
        }
      }
    }
  }

  lemma {:induction false} SpansAreProper(lines: seq<Line>)
    requires RangesAscend(lines) && Read(lines).Some?
    ensures ProperSpans(Read(lines).value.spans)
  {
    if lines == [] {
    } else {
      var before, l := lines[..|lines| - 1], lines[|lines| - 1];
      ReadMeans(before);
      forall k: nat | k < |before| && before[k].isLast && FollowsFirst(before, k)
        ensures before[k - 1].code <= before[k].code
      {
        assert lines[k].isLast && FollowsFirst(lines, k);
      }
      SpansAreProper(before);
      if l.isLast && FollowsFirst(lines, |before|) {
        assert lines[|before| - 1] == before[|before| - 1];
      }
    }
  }

  // ---------------------------------------------------------------------------
  // The tables of the lines
  // ---------------------------------------------------------------------------

  lemma {:induction false} WordRangesCover(spans: seq<Span>, c: nat)
    ensures Covers(WordRanges(spans), c) <==> SpanOfWord(spans, c)
  {
    if spans == [] {
    } else {
      var before, s := spans[..|spans| - 1], spans[|spans| - 1];
      assert spans == before + [s];
      WordRangesCover(before, c);
      OneMoreSpanOfWord(before, s, c);
      CoversAppend(WordRanges(before), Range(s.low, s.high), c);
    }
  }

  /** Each code point has, in the category table, exactly the kinds of the lines that are for it. */
  lemma KindsAreOfLines(lines: seq<Line>, categories: seq<Category>, words: seq<Range>, c: nat, kind: nat)
    requires Read(lines).Some? && Collected(Read(lines).value.spans, categories, words)
    requires RangesAscend(lines) && kind != 0
    ensures HasKind(categories, c, kind) <==> LineOfKind(lines, c, kind)
  {
    ReadMeans(lines);
    SpansAreProper(lines);
    assert HasKind(categories, c, kind) <==> kind != 0 && SpanHasKind(Read(lines).value.spans, c, kind);
  }

  lemma WordsAreOfLines(lines: seq<Line>, categories: seq<Category>, words: seq<Range>, c: nat)
    requires Read(lines).Some? && Collected(Read(lines).value.spans, categories, words)
    ensures Covers(words, c) <==> LineOfWord(lines, c)
  {
    ReadMeans(lines);
    WordRangesCover(Read(lines).value.spans, c);
  }

  ghost predicate CodesAscend(lines: seq<Line>) {
    forall i, j | 0 <= i < j < |lines| :: lines[i].code < lines[j].code
  }

  lemma CodesGiveRanges(lines: seq<Line>)
    requires CodesAscend(lines)
    ensures RangesAscend(lines)
  {
    forall k: nat | k < |lines| && lines[k].isLast && FollowsFirst(lines, k)
      ensures lines[k - 1].code <= lines[k].code
    {
      assert lines[k - 1].code < lines[k].code;
    }
  }

  /** The last span ends with the code of one of the lines that are not First lines. */
  ghost predicate EndsWithLine(lines: seq<Line>, spans: seq<Span>) {
    spans != [] ==> exists k: nat :: k < |lines| && !lines[k].isFirst && spans[|spans| - 1].high == lines[k].code
  }

  lemma OneMoreSpanAscends(spans: seq<Span>, s: Span)
    requires AscendingSpans(spans) && ProperSpans(spans) && (spans != [] ==> spans[|spans| - 1].high < s.low)
    ensures AscendingSpans(spans + [s])
  {
    forall i | 0 <= i < |spans| ensures spans[i].high < s.low {
      var last := spans[|spans| - 1];
      assert last in spans && (i < |spans| - 1 ==> spans[i].high < last.low);
    }
  }

  /** The range of the next line begins behind all lines that were read into a span. */
  lemma NextBeginsBehind(lines: seq<Line>, l: Line, spans: seq<Span>, first: Option<nat>)
    requires CodesAscend(lines + [l]) && Waits(lines, first) && EndsWithLine(lines, spans) && spans != []
    requires l.isLast ==> first.Some?
    ensures spans[|spans| - 1].high < if l.isLast then first.value else l.code
  {
    var all := lines + [l];
    var k: nat :| k < |lines| && !lines[k].isFirst && spans[|spans| - 1].high == lines[k].code;
    assert all[k] == lines[k] && all[|lines| - 1] == lines[|lines| - 1] && all[|lines|] == l;
    assert k < |lines| - 1 ==> all[k].code < all[|lines| - 1].code;
    assert all[k].code < all[|lines|].code;
  }

  lemma EndsWithSome(lines: seq<Line>, l: Line, spans: seq<Span>)
    requires EndsWithLine(lines, spans)
    ensures EndsWithLine(lines + [l], spans)
  {
    var all := lines + [l];
    if spans != [] {
      var k: nat :| k < |lines| && !lines[k].isFirst && spans[|spans| - 1].high == lines[k].code;
      assert all[k] == lines[k];
    }
  }

  lemma EndsWithNew(lines: seq<Line>, l: Line, spans: seq<Span>)
    requires spans != [] && spans[|spans| - 1].high == l.code && !l.isFirst
    ensures EndsWithLine(lines + [l], spans)
  {
    assert (lines + [l])[|lines|] == l;
  }

  lemma SpansAscendStep(lines: seq<Line>, l: Line, before: Reading)
    requires CodesAscend(lines + [l]) && Waits(lines, before.first) && ReadLine(before, l).Some?
    requires AscendingSpans(before.spans) && ProperSpans(before.spans) && EndsWithLine(lines, before.spans)
    ensures var spans := ReadLine(before, l).value.spans; AscendingSpans(spans) && EndsWithLine(lines + [l], spans)
  {
    if l.isFirst || (l.isLast && before.first.None?) {
      EndsWithSome(lines, l, before.spans);
    } else {
      if before.spans != [] {
        NextBeginsBehind(lines, l, before.spans, before.first);
      }
      var s := Span(if l.isLast then before.first.value else l.code, l.code, l.kind, l.isWord);
      OneMoreSpanAscends(before.spans, s);
      EndsWithNew(lines, l, before.spans + [s]);
    }
  }

  /** What is read from ascending lines ascends. */
  lemma {:induction false} SpansAscend(lines: seq<Line>)
    requires CodesAscend(lines) && Read(lines).Some?
    ensures AscendingSpans(Read(lines).value.spans) && EndsWithLine(lines, Read(lines).value.spans)
  {
    if lines == [] {
    } else {
      var before, l := lines[..|lines| - 1], lines[|lines| - 1];
      assert lines == before + [l];
      forall i, j | 0 <= i < j < |before| ensures before[i].code < before[j].code {
        assert lines[i].code < lines[j].code;
      }
      SpansAscend(before);
      ReadMeans(before);
      CodesGiveRanges(before);
      SpansAreProper(before);
      SpansAscendStep(before, l, Read(before).value);
    }
  }

  /** The category table of ascending lines is the one table of its kind: canonical, with the kinds of the lines. */
  lemma AscendingLinesGiveCanonical(lines: seq<Line>, categories: seq<Category>, words: seq<Range>)
    requires Read(lines).Some? && Collected(Read(lines).value.spans, categories, words)
    requires CodesAscend(lines)
    ensures Canonical(categories)
    ensures forall c: nat, kind: nat :: kind != 0 ==> (HasKind(categories, c, kind) <==> LineOfKind(lines, c, kind))
  {
    SpansAscend(lines);
    CodesGiveRanges(lines);
    SpansAreProper(lines);
    forall c: nat, kind: nat | kind != 0 ensures HasKind(categories, c, kind) <==> LineOfKind(lines, c, kind) {
      KindsAreOfLines(lines, categories, words, c, kind);
    }
  }

  // ---------------------------------------------------------------------------
  // The composition table
  // ---------------------------------------------------------------------------

  /** A decomposition into two, which is not excluded and begins with a starter. */
  ghost predicate IsPrimary(m: Mapping, excluded: set<nat>, classes: map<nat, nat>) {
    m.second != 0 && m.point !in excluded && !(m.first in classes && classes[m.first] != 0)
  }

  /** A table in which a search for a pair finds the one primary composite that decomposes into it. */
  ghost predicate ComposesPrimaries(mappings: seq<Mapping>, excluded: set<nat>, classes: map<nat, nat>,
          table: seq<Mapping>)
  {
    && (forall m :: m in table <==> m in mappings && IsPrimary(m, excluded, classes))
    && forall i, j | 0 <= i < j < |table| ::
         table[i].first < table[j].first || (table[i].first == table[j].first && table[i].second < table[j].second)
  }

  /** What the composition table is, for the table that is made and for no other. */
  lemma CompositionMeans(mappings: seq<Mapping>, excluded: set<nat>, classes: map<nat, nat>, table: seq<Mapping>)
    ensures AscendingPairs(table) && (forall m :: m in table <==> m in mappings && Composes(m, excluded, classes))
      <==> ComposesPrimaries(mappings, excluded, classes, table)
    ensures RetainedApart(mappings, excluded, classes) <==>
      forall i, j | 0 <= i < j < |mappings| && IsPrimary(mappings[i], excluded, classes)
                    && IsPrimary(mappings[j], excluded, classes) ::
        mappings[i].first != mappings[j].first || mappings[i].second != mappings[j].second
  {
    forall m ensures Composes(m, excluded, classes) <==> IsPrimary(m, excluded, classes) {
    }
  }
}
