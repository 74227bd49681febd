/**
 The tables that a tokenizer makes from the Unicode character database: merged
 word ranges, category ranges, and canonical composition.

 A table of ranges is canonical when its ranges ascend and cannot be joined, so
 that a set of code points has one table.  Word ranges are sorted before they are
 merged; category ranges are canonical when the lines of the database ascend.

 Composition is the inverse of the decompositions that are retained.
 */
module UnicodeRanges {
  import opened Results
  import opened Sorting

  // ---------------------------------------------------------------------------
  // Word ranges
  // ---------------------------------------------------------------------------

  datatype Range = Range(low: nat, high: nat)

  predicate RangeLeq(a: Range, b: Range) {
    a.low < b.low || (a.low == b.low && a.high <= b.high)
  }

  ghost predicate Covers(ranges: seq<Range>, c: nat) {
    exists k :: 0 <= k < |ranges| && ranges[k].low <= c <= ranges[k].high
  }

  ghost predicate AllProper(ranges: seq<Range>) {
    forall r | r in ranges :: r.low <= r.high
  }

  /** In ascending order, with at least one code point between any two. */
  ghost predicate Separated(ranges: seq<Range>) {
    && AllProper(ranges)
    && forall i, j | 0 <= i < j < |ranges| :: ranges[i].high + 1 < ranges[j].low
  }

  lemma SortedKeepsCover(ranges: seq<Range>, c: nat)
    ensures Covers(Sort(ranges, RangeLeq), c) <==> Covers(ranges, c)
  {
    var sorted := Sort(ranges, RangeLeq);
    if Covers(sorted, c) {
      var k :| 0 <= k < |sorted| && sorted[k].low <= c <= sorted[k].high;
      SameItems(ranges, RangeLeq, sorted[k]);
      var j :| 0 <= j < |ranges| && ranges[j] == sorted[k];
    }
    if Covers(ranges, c) {
      var k :| 0 <= k < |ranges| && ranges[k].low <= c <= ranges[k].high;
      SameItems(ranges, RangeLeq, ranges[k]);
      var j :| 0 <= j < |sorted| && sorted[j] == ranges[k];
    }
  }

  lemma CoversAppend(ranges: seq<Range>, r: Range, c: nat)
    ensures Covers(ranges + [r], c) <==> Covers(ranges, c) || r.low <= c <= r.high
  {
    var more := ranges + [r];
    if Covers(ranges, c) {
      var k :| 0 <= k < |ranges| && ranges[k].low <= c <= ranges[k].high;
      assert more[k] == ranges[k];
    }
    assert more[|ranges|] == r;
  }

  ghost predicate SameCover(a: seq<Range>, b: seq<Range>) {
    forall c :: Covers(a, c) <==> Covers(b, c)
  }

  /** The loop state after the first `k` ranges. */
  ghost predicate MergedTo(sorted: seq<Range>, k: nat, merged: seq<Range>)
    requires k <= |sorted|
  {
    && Separated(merged)
    && SameCover(merged, sorted[..k])
    && if k == 0 then merged == [] else merged != [] && merged[|merged| - 1].low <= sorted[k - 1].low
  }

  lemma AppendStep(sorted: seq<Range>, k: nat, merged: seq<Range>)
    requires k < |sorted| && MergedTo(sorted, k, merged) && sorted[k].low <= sorted[k].high
    requires merged == [] || merged[|merged| - 1].high + 1 < sorted[k].low
    ensures MergedTo(sorted, k + 1, merged + [sorted[k]])
  {
    SeparatedAppend(merged, sorted[k]);
    forall c: nat ensures Covers(merged + [sorted[k]], c) <==> Covers(sorted[..k + 1], c) {
      CoversAppend(merged, sorted[k], c);
      CoversAppend(sorted[..k], sorted[k], c);
      assert sorted[..k + 1] == sorted[..k] + [sorted[k]];
    }
  }

  lemma SeparatedAppend(ranges: seq<Range>, r: Range)
    requires Separated(ranges) && r.low <= r.high
    requires ranges == [] || ranges[|ranges| - 1].high + 1 < r.low
    ensures Separated(ranges + [r])
  {
    forall i | 0 <= i < |ranges| ensures ranges[i].high + 1 < r.low {
      assert i < |ranges| - 1 ==> ranges[i].high + 1 < ranges[|ranges| - 1].low;
      assert ranges[|ranges| - 1] in ranges;
    }
  }

  lemma SeparatedFront(front: seq<Range>, last: Range)
    requires Separated(front + [last])
    ensures Separated(front) && last.low <= last.high
    ensures front == [] || front[|front| - 1].high + 1 < last.low
  {
    var ranges := front + [last];
    assert last in ranges && forall r | r in front :: r in ranges;
    forall i, j | 0 <= i < j < |front| ensures front[i].high + 1 < front[j].low {
      assert ranges[i].high + 1 < ranges[j].low;
    }
    assert front != [] ==> ranges[|front| - 1].high + 1 < ranges[|front|].low;
  }

  lemma JoinStep(sorted: seq<Range>, k: nat, front: seq<Range>, last: Range, high: nat)
    requires 0 < k < |sorted| && MergedTo(sorted, k, front + [last]) && sorted[k].low <= sorted[k].high
    requires last.low <= sorted[k].low <= last.high + 1
    requires high == if sorted[k].high > last.high then sorted[k].high else last.high
    ensures MergedTo(sorted, k + 1, front + [Range(last.low, high)])
  {
    var joined := Range(last.low, high);
    SeparatedFront(front, last);
    SeparatedAppend(front, joined);
    forall c: nat ensures Covers(front + [joined], c) <==> Covers(sorted[..k + 1], c) {
      CoversAppend(front, last, c);
      CoversAppend(front, joined, c);
      CoversAppend(sorted[..k], sorted[k], c);
      assert sorted[..k + 1] == sorted[..k] + [sorted[k]];
    }
  }

  /** Sorted ranges become separated ones of the same code points. */
  method MergeSorted(sorted: seq<Range>) returns (merged: seq<Range>)
    requires AllProper(sorted) && IsSorted(sorted, RangeLeq)
    ensures Separated(merged) && SameCover(merged, sorted)
  {
    merged := [];
    for k := 0 to |sorted|
      invariant MergedTo(sorted, k, merged)
    {
      var r := sorted[k];
      assert r in sorted;
      assert k > 0 ==> RangeLeq(sorted[k - 1], r);
      if merged != [] && r.low <= merged[|merged| - 1].high + 1 {
        var front, last := merged[..|merged| - 1], merged[|merged| - 1];
        var high := if r.high > last.high then r.high else last.high;
        assert merged == front + [last];
        JoinStep(sorted, k, front, last, high);
        merged := front + [Range(last.low, high)];
      } else {
        AppendStep(sorted, k, merged);
        merged := merged + [r];
      }
    }
    assert sorted[..|sorted|] == sorted;
  }

  /** The word table: separated ranges of exactly the code points of the collected ranges. */
  method MergeWords(words: seq<Range>) returns (merged: seq<Range>)
    requires AllProper(words)
    ensures Separated(merged) && SameCover(merged, words)
  {
    var sorted := Sort(words, RangeLeq);
    SortSorts(words, RangeLeq);
    forall r | r in sorted ensures r in words {
      SameItems(words, RangeLeq, r);
    }
    merged := MergeSorted(sorted);
    forall c ensures Covers(sorted, c) <==> Covers(words, c) {
      SortedKeepsCover(words, c);
    }
  }

  lemma GapBehindFirst(ranges: seq<Range>)
    requires Separated(ranges) && ranges != []
    ensures !Covers(ranges, ranges[0].high + 1)
  {
    forall k | 0 <= k < |ranges| ensures !(ranges[k].low <= ranges[0].high + 1 <= ranges[k].high) {
      assert k > 0 ==> ranges[0].high + 1 < ranges[k].low;
    }
  }

  lemma FirstRangeIs(a: seq<Range>, b: seq<Range>)
    requires Separated(a) && Separated(b) && a != [] && SameCover(a, b)
    ensures b != [] && a[0].low >= b[0].low && (a[0].low == b[0].low ==> a[0].high <= b[0].high)
  {
    var low, high := a[0].low, a[0].high;
    assert a[0] in a;
    assert Covers(a, low) && Covers(b, low);
    assert forall r | r in b :: r.low <= r.high;
    var next := b[0].high + 1;
    assert low <= next <= high ==> Covers(a, next);
    assert b[0] in b;
    GapBehindFirst(b);
  }

  lemma RestsCover(a: seq<Range>, b: seq<Range>)
    requires Separated(a) && Separated(b) && SameCover(a, b)
    requires a != [] && b != [] && a[0] == b[0]
    ensures Separated(a[1..]) && Separated(b[1..]) && SameCover(a[1..], b[1..])
  {
    forall c: nat ensures Covers(a[1..], c) <==> Covers(b[1..], c) {
      RestCovers(a, c);
      RestCovers(b, c);
    }
  }

  /** There is only one table of separated ranges for a set of code points. */
  lemma {:induction false} SeparatedIsUnique(a: seq<Range>, b: seq<Range>)
    requires Separated(a) && Separated(b) && SameCover(a, b)
    ensures a == b
  {
    if a == [] {
      if b != [] {
        assert b[0] in b && Covers(b, b[0].low);
      }
    } else {
      FirstRangeIs(a, b);
      FirstRangeIs(b, a);
      RestsCover(a, b);
      SeparatedIsUnique(a[1..], b[1..]);
      assert a == [a[0]] + a[1..] && b == [b[0]] + b[1..];
    }
  }

  lemma RestCovers(ranges: seq<Range>, c: nat)
    requires ranges != [] && Separated(ranges)
    ensures Covers(ranges[1..], c) <==> Covers(ranges, c) && c > ranges[0].high
  {
    var rest := ranges[1..];
    if Covers(rest, c) {
      var k :| 0 <= k < |rest| && rest[k].low <= c <= rest[k].high;
      assert ranges[k + 1] == rest[k];
    }
    if Covers(ranges, c) && c > ranges[0].high {
      var k :| 0 <= k < |ranges| && ranges[k].low <= c <= ranges[k].high;
      assert k > 0 && rest[k - 1] == ranges[k];
    }
  }

  // ---------------------------------------------------------------------------
  // Category ranges
  // ---------------------------------------------------------------------------

  /** A line of the character database; kind 0 is neither letter nor number. */
  datatype Line = Line(code: nat, kind: nat, isWord: bool, isFirst: bool, isLast: bool)

  /** The code points that one line, or a First line and its Last line, stand for. */
  datatype Span = Span(low: nat, high: nat, kind: nat, isWord: bool)

  /** The spans of the lines, and the First line that still waits for its Last line. */
  datatype Reading = Reading(spans: seq<Span>, first: Option<nat>)

  /** What the lines stand for, if every Last line that is for a table has its First line. */
  function Read(lines: seq<Line>): Option<Reading> {
    if lines == [] then Some(Reading([], None))
    else
      var before := Read(lines[..|lines| - 1]);
      if before.None? then None else ReadLine(before.value, lines[|lines| - 1])
  }

  datatype Category = Category(low: nat, high: nat, kind: nat)

  ghost predicate HasKind(categories: seq<Category>, c: nat, kind: nat) {
    exists k :: 0 <= k < |categories| && categories[k].low <= c <= categories[k].high && categories[k].kind == kind
  }

  ghost predicate SpanHasKind(spans: seq<Span>, c: nat, kind: nat) {
    exists k :: 0 <= k < |spans| && spans[k].low <= c <= spans[k].high && spans[k].kind == kind
  }

  ghost predicate ProperSpans(spans: seq<Span>) {
    forall s | s in spans :: s.low <= s.high
  }

  ghost predicate AscendingSpans(spans: seq<Span>) {
    forall i, j | 0 <= i < j < |spans| :: spans[i].high < spans[j].low
  }

  /** Ascending, disjoint, and no two neighbours that could be one. */
  ghost predicate Canonical(categories: seq<Category>) {
    && (forall k | 0 <= k < |categories| :: categories[k].low <= categories[k].high && categories[k].kind != 0)
    && (forall i, j | 0 <= i < j < |categories| :: categories[i].high < categories[j].low)
    && (forall k | 0 < k < |categories| ::
          categories[k - 1].high + 1 == categories[k].low ==> categories[k - 1].kind != categories[k].kind)
  }

  /** The tables say what the spans say. */
  ghost predicate Says(categories: seq<Category>, spans: seq<Span>) {
    forall c: nat, kind: nat :: HasKind(categories, c, kind) <==> kind != 0 && SpanHasKind(spans, c, kind)
  }

  lemma CategoryAppend(categories: seq<Category>, x: Category, c: nat, kind: nat)
    ensures HasKind(categories + [x], c, kind)
            <==> HasKind(categories, c, kind) || (x.low <= c <= x.high && x.kind == kind)
  {
    var more := categories + [x];
    if HasKind(categories, c, kind) {
      var k :| 0 <= k < |categories| && categories[k].low <= c <= categories[k].high && categories[k].kind == kind;
      assert more[k] == categories[k];
    }
    assert more[|categories|] == x;
  }

  lemma SpanAppend(spans: seq<Span>, s: Span, c: nat, kind: nat)
    ensures SpanHasKind(spans + [s], c, kind)
            <==> SpanHasKind(spans, c, kind) || (s.low <= c <= s.high && s.kind == kind)
  {
    var more := spans + [s];
    if SpanHasKind(spans, c, kind) {
      var k :| 0 <= k < |spans| && spans[k].low <= c <= spans[k].high && spans[k].kind == kind;
      assert more[k] == spans[k];
    }
    assert more[|spans|] == s;
  }

  /** One more span, as the loop adds it. */
  function AddSpan(categories: seq<Category>, s: Span): seq<Category> {
    var n := |categories|;
    if s.kind == 0 then categories
    else if n > 0 && categories[n - 1].high + 1 == s.low && categories[n - 1].kind == s.kind then
      categories[..n - 1] + [Category(categories[n - 1].low, s.high, s.kind)]
    else categories + [Category(s.low, s.high, s.kind)]
  }

  lemma AddedSpanIsSaid(categories: seq<Category>, spans: seq<Span>, s: Span)
    requires Says(categories, spans) && s.low <= s.high
    requires forall k | 0 <= k < |categories| :: categories[k].low <= categories[k].high
    ensures Says(AddSpan(categories, s), spans + [s])
    ensures forall k | 0 <= k < |AddSpan(categories, s)| ::
            AddSpan(categories, s)[k].low <= AddSpan(categories, s)[k].high
  {
    var after, n := AddSpan(categories, s), |categories|;
    forall c: nat, kind: nat ensures HasKind(after, c, kind) <==> kind != 0 && SpanHasKind(spans + [s], c, kind) {
      SpanAppend(spans, s, c, kind);
      if s.kind != 0 && after == categories + [Category(s.low, s.high, s.kind)] {
        CategoryAppend(categories, Category(s.low, s.high, s.kind), c, kind);
      } else if s.kind != 0 {
        var front, last := categories[..n - 1], categories[n - 1];
        assert categories == front + [last];
        CategoryAppend(front, last, c, kind);
        CategoryAppend(front, Category(last.low, s.high, s.kind), c, kind);
      }
    }
  }

  lemma CanonicalAppend(categories: seq<Category>, x: Category)
    requires Canonical(categories) && x.low <= x.high && x.kind != 0
    requires categories != [] ==>
      var last := categories[|categories| - 1];
      last.high < x.low && (last.high + 1 == x.low ==> last.kind != x.kind)
    ensures Canonical(categories + [x])
  {
    var n := |categories|;
    if n > 0 {
      forall i | 0 <= i < n ensures categories[i].high < x.low {
        assert i < n - 1 ==> categories[i].high < categories[n - 1].low;
      }
    }
  }

  lemma CanonicalFront(categories: seq<Category>)
    requires Canonical(categories) && categories != []
    ensures Canonical(categories[..|categories| - 1])
  {
  }

  /** While the spans ascend, the categories stay canonical. */
  lemma AddedSpanIsCanonical(categories: seq<Category>, s: Span)
    requires Canonical(categories) && s.low <= s.high
    requires categories != [] ==> categories[|categories| - 1].high < s.low
    ensures Canonical(AddSpan(categories, s))
    ensures AddSpan(categories, s) != [] ==> AddSpan(categories, s)[|AddSpan(categories, s)| - 1].high <= s.high
  {
    var n := |categories|;
    if s.kind != 0 {
      if n > 0 && categories[n - 1].high + 1 == s.low && categories[n - 1].kind == s.kind {
        CanonicalFront(categories);
        CanonicalAppend(categories[..n - 1], Category(categories[n - 1].low, s.high, s.kind));
      } else {
        CanonicalAppend(categories, Category(s.low, s.high, s.kind));
      }
    }
  }

  /**
   What one more line does to a reading.  A Last line without its First line has no
   beginning: that cannot be sorted or written, and does not matter if the line is for
   neither table.
   */
  function ReadLine(before: Reading, l: Line): Option<Reading> {
    if l.isFirst then Some(before.(first := Some(l.code)))
    else if l.isLast && before.first.None? then
      if l.kind != 0 || l.isWord then None else Some(before)
    else
      var low := if l.isLast then before.first.value else l.code;
      Some(Reading(before.spans + [Span(low, l.code, l.kind, l.isWord)], None))
  }

  /**
   The category table and the word ranges of the lines.  Each code point has in the
   table exactly the kind of its line, and for ascending lines the table is canonical.
   */
  method Collect(lines: seq<Line>) returns (r: Option<(seq<Category>, seq<Range>)>)
    ensures r.Some? <==> Read(lines).Some?
    ensures r.Some? ==> Collected(Read(lines).value.spans, r.value.0, r.value.1)
  {
    var categories: seq<Category>, words: seq<Range>, first: Option<nat> := [], [], None;
    ghost var reading := Reading([], None);
    for k := 0 to |lines|
      invariant Read(lines[..k]) == Some(reading) && first == reading.first
      invariant Collected(reading.spans, categories, words)
    {
      var l := lines[k];
      assert lines[..k + 1][..k] == lines[..k];
      if l.isFirst {
        first := Some(l.code);
      } else if l.isLast && first.None? {
        if l.kind != 0 || l.isWord {
          ReadFails(lines, k);
          return None;
        }
      } else {
        var low := if l.isLast then first.value else l.code;
        first := None;
        SpanCollected(reading.spans, categories, words, Span(low, l.code, l.kind, l.isWord));
        words := words + if l.isWord then [Range(low, l.code)] else [];
        categories := AddSpan(categories, Span(low, l.code, l.kind, l.isWord));
      }
      reading := ReadLine(reading, l).value;
    }
    assert lines[..|lines|] == lines;
    return Some((categories, words));
  }

  function WordRanges(spans: seq<Span>): seq<Range> {
    if spans == [] then []
    else
      var before, s := WordRanges(spans[..|spans| - 1]), spans[|spans| - 1];
      if s.isWord then before + [Range(s.low, s.high)] else before
  }

  ghost predicate Collected(spans: seq<Span>, categories: seq<Category>, words: seq<Range>) {
    && words == WordRanges(spans)
    && (ProperSpans(spans) ==>
          && Says(categories, spans)
          && (forall k | 0 <= k < |categories| :: categories[k].low <= categories[k].high))
    && (ProperSpans(spans) && AscendingSpans(spans) ==>
          && Canonical(categories)
          && (categories != [] ==> spans != [] && categories[|categories| - 1].high <= spans[|spans| - 1].high))
  }

  lemma SpansBefore(spans: seq<Span>, s: Span)
    ensures ProperSpans(spans + [s]) ==> ProperSpans(spans) && s.low <= s.high
    ensures AscendingSpans(spans + [s]) ==> AscendingSpans(spans) && (spans != [] ==> spans[|spans| - 1].high < s.low)
  {
    var more := spans + [s];
    if ProperSpans(more) {
      assert forall x | x in spans :: x in more;
      assert s in more;
    }
    if AscendingSpans(more) {
      forall i, j | 0 <= i < j < |spans| ensures spans[i].high < spans[j].low {
        assert more[i].high < more[j].low;
      }
      assert spans != [] ==> more[|spans| - 1].high < more[|spans|].low;
    }
  }

  lemma SpanCollected(spans: seq<Span>, categories: seq<Category>, words: seq<Range>, s: Span)
    requires Collected(spans, categories, words)
    ensures Collected(spans + [s], AddSpan(categories, s), words + if s.isWord then [Range(s.low, s.high)] else [])
  {
    var more := spans + [s];
    assert more[..|spans|] == spans && words + [] == words;
    if ProperSpans(more) {
      SpansBefore(spans, s);
      AddedSpanIsSaid(categories, spans, s);
      if AscendingSpans(more) {
        AddedSpanIsCanonical(categories, s);
        assert more[|more| - 1] == s;
      }
    }
  }

  lemma {:induction false} ReadFails(lines: seq<Line>, k: nat)
    requires k < |lines| && Read(lines[..k]).Some?
    requires !lines[k].isFirst && lines[k].isLast && Read(lines[..k]).value.first.None?
    requires lines[k].kind != 0 || lines[k].isWord
    ensures Read(lines).None?
  {
    var n := |lines| - 1;
    if k == n {
    } else {
      assert lines[..n][..k] == lines[..k];
      ReadFails(lines[..n], k);
    }
  }

  /** A canonical table gives a code point at most one kind. */
  lemma KindIsUnique(categories: seq<Category>, c: nat, a: nat, b: nat)
    requires Canonical(categories) && HasKind(categories, c, a) && HasKind(categories, c, b)
    ensures a == b
  {
    var i :| 0 <= i < |categories| && categories[i].low <= c <= categories[i].high && categories[i].kind == a;
    var j :| 0 <= j < |categories| && categories[j].low <= c <= categories[j].high && categories[j].kind == b;
    assert i == j;
  }

  // ---------------------------------------------------------------------------
  // Canonical composition
  // ---------------------------------------------------------------------------

  /** A code point and what it decomposes into; second 0 means that there is only a first. */
  datatype Mapping = Mapping(first: nat, second: nat, point: nat)

  predicate MappingLeq(a: Mapping, b: Mapping) {
    || a.first < b.first
    || (a.first == b.first && a.second < b.second)
    || (a.first == b.first && a.second == b.second && a.point <= b.point)
  }

  /** Exclusions, singletons and decompositions that begin with a nonstarter are not composed (section 5 of UAX #15). */
  predicate Composes(m: Mapping, excluded: set<nat>, classes: map<nat, nat>) {
    m.second != 0 && m.point !in excluded && (m.first in classes ==> classes[m.first] == 0)
  }

  function Retained(mappings: seq<Mapping>, excluded: set<nat>, classes: map<nat, nat>): seq<Mapping> {
    if mappings == [] then []
    else
      var before, last := Retained(mappings[..|mappings| - 1], excluded, classes), mappings[|mappings| - 1];
      if Composes(last, excluded, classes) then before + [last] else before
  }

  lemma {:induction false} RetainedAre(mappings: seq<Mapping>, excluded: set<nat>, classes: map<nat, nat>, m: Mapping)
    ensures m in Retained(mappings, excluded, classes) <==> m in mappings && Composes(m, excluded, classes)
  {
    if mappings == [] {
    } else {
      RetainedAre(mappings[..|mappings| - 1], excluded, classes, m);
      assert mappings == mappings[..|mappings| - 1] + [mappings[|mappings| - 1]];
    }
  }

  predicate SamePair(a: Mapping, b: Mapping) {
    a.first == b.first && a.second == b.second
  }

  ghost predicate DistinctPairs(mappings: seq<Mapping>) {
    forall i, j | 0 <= i < j < |mappings| :: !SamePair(mappings[i], mappings[j])
  }

  /** No two of the decompositions that are retained are of one pair. */
  ghost predicate RetainedApart(mappings: seq<Mapping>, excluded: set<nat>, classes: map<nat, nat>) {
    forall i, j | 0 <= i < j < |mappings| && Composes(mappings[i], excluded, classes)
                  && Composes(mappings[j], excluded, classes) ::
      !SamePair(mappings[i], mappings[j])
  }

  lemma DistinctWithOneMore(some: seq<Mapping>, last: Mapping)
    ensures DistinctPairs(some + [last]) <==> DistinctPairs(some) && forall m | m in some :: !SamePair(m, last)
  {
    var all := some + [last];
    if DistinctPairs(all) {
      forall i, j | 0 <= i < j < |some| ensures !SamePair(some[i], some[j]) {
        assert !SamePair(all[i], all[j]);
      }
      forall m | m in some ensures !SamePair(m, last) {
        var i :| 0 <= i < |some| && some[i] == m;
        assert !SamePair(all[i], all[|some|]);
      }
    }
  }

  lemma ApartWithOneMore(mappings: seq<Mapping>, last: Mapping, excluded: set<nat>, classes: map<nat, nat>)
    ensures RetainedApart(mappings + [last], excluded, classes) <==>
      && RetainedApart(mappings, excluded, classes)
      && (Composes(last, excluded, classes) ==>
            forall m | m in mappings && Composes(m, excluded, classes) :: !SamePair(m, last))
  {
    var all := mappings + [last];
    if RetainedApart(all, excluded, classes) {
      forall i, j | 0 <= i < j < |mappings| && Composes(mappings[i], excluded, classes)
                    && Composes(mappings[j], excluded, classes)
        ensures !SamePair(mappings[i], mappings[j])
      {
        assert all[i] == mappings[i] && all[j] == mappings[j];
      }
      if Composes(last, excluded, classes) {
        forall m | m in mappings && Composes(m, excluded, classes) ensures !SamePair(m, last) {
          var i :| 0 <= i < |mappings| && mappings[i] == m;
          assert all[i] == m && all[|mappings|] == last;
        }
      }
    }
  }

  lemma {:induction false} RetainedAreApart(mappings: seq<Mapping>, excluded: set<nat>, classes: map<nat, nat>)
    ensures DistinctPairs(Retained(mappings, excluded, classes)) <==> RetainedApart(mappings, excluded, classes)
  {
    if mappings == [] {
    } else {
      var before, last := mappings[..|mappings| - 1], mappings[|mappings| - 1];
      assert mappings == before + [last];
      RetainedAreApart(before, excluded, classes);
      ApartWithOneMore(before, last, excluded, classes);
      DistinctWithOneMore(Retained(before, excluded, classes), last);
      forall m ensures m in Retained(before, excluded, classes) <==> m in before && Composes(m, excluded, classes) {
        RetainedAre(before, excluded, classes, m);
      }
    }
  }

  function PairSet(items: seq<Mapping>): set<(nat, nat)> {
    set m | m in items :: (m.first, m.second)
  }

  /** There are as many pairs as items exactly when the pairs are distinct. */
  lemma {:induction false} PairsCount(items: seq<Mapping>)
    ensures |PairSet(items)| <= |items|
    ensures |PairSet(items)| == |items| <==> DistinctPairs(items)
  {
    if items == [] {
    } else {
      var before, last := items[..|items| - 1], items[|items| - 1];
      var pair := (last.first, last.second);
      assert items == before + [last];
      PairsCount(before);
      DistinctWithOneMore(before, last);
      PairsWithOneMore(before, last);
      assert pair in PairSet(before) ==> PairSet(before) + {pair} == PairSet(before);
    }
  }

  lemma PairsWithOneMore(items: seq<Mapping>, last: Mapping)
    ensures PairSet(items + [last]) == PairSet(items) + {(last.first, last.second)}
    ensures (last.first, last.second) in PairSet(items) <==> exists m :: m in items && SamePair(m, last)
  {
  }

  lemma SortingKeepsPairs(items: seq<Mapping>)
    ensures DistinctPairs(Sort(items, MappingLeq)) <==> DistinctPairs(items)
  {
    var sorted := Sort(items, MappingLeq);
    forall m ensures |sorted| == |items| && (m in sorted <==> m in items) {
      SameItems(items, MappingLeq, m);
    }
    assert PairSet(sorted) == PairSet(items);
    PairsCount(items);
    PairsCount(sorted);
  }

  /** Strictly ascending by pair, as a search over the table needs it. */
  ghost predicate AscendingPairs(table: seq<Mapping>) {
    forall i, j | 0 <= i < j < |table| ::
      table[i].first < table[j].first || (table[i].first == table[j].first && table[i].second < table[j].second)
  }

  /** The composition table, or nothing if two retained decompositions are the same pair. */
  method ComposeTable(mappings: seq<Mapping>, excluded: set<nat>, classes: map<nat, nat>)
    returns (table: Option<seq<Mapping>>)
    ensures table.Some? <==> RetainedApart(mappings, excluded, classes)
    ensures table.Some? ==> AscendingPairs(table.value)
    ensures table.Some? ==> forall m :: m in table.value <==> m in mappings && Composes(m, excluded, classes)
  {
    var composition := Sort(Retained(mappings, excluded, classes), MappingLeq);
    SortSorts(Retained(mappings, excluded, classes), MappingLeq);
    SortingKeepsPairs(Retained(mappings, excluded, classes));
    RetainedAreApart(mappings, excluded, classes);
    forall m ensures m in composition <==> m in mappings && Composes(m, excluded, classes) {
      SameItems(Retained(mappings, excluded, classes), MappingLeq, m);
      RetainedAre(mappings, excluded, classes, m);
    }
    var distinct := CountPairs(composition);
    if distinct != |composition| {
      return None;
    }
    AscendFromDistinct(composition);
    return Some(composition);
  }

  method CountPairs(composition: seq<Mapping>) returns (n: nat)
    ensures n == |composition| <==> DistinctPairs(composition)
  {
    var pairs: set<(nat, nat)> := {};
    for k := 0 to |composition|
      invariant pairs == PairSet(composition[..k])
    {
      assert composition[..k + 1] == composition[..k] + [composition[k]];
      PairsWithOneMore(composition[..k], composition[k]);
      pairs := pairs + {(composition[k].first, composition[k].second)};
    }
    assert composition[..|composition|] == composition;
    PairsCount(composition);
    n := |pairs|;
  }

  lemma AscendFromDistinct(table: seq<Mapping>)
    requires IsSorted(table, MappingLeq) && DistinctPairs(table)
    ensures AscendingPairs(table)
  {
    forall i, j | 0 <= i < j < |table|
      ensures table[i].first < table[j].first || (table[i].first == table[j].first && table[i].second < table[j].second)
    {
      assert MappingLeq(table[i], table[j]);
      assert !SamePair(table[i], table[j]);
    }
  }

  /** Composing what a retained code point decomposes into gives that code point and no other. */
  lemma CompositionInverts(table: seq<Mapping>, m: Mapping, point: nat)
    requires AscendingPairs(table) && m in table
    ensures Mapping(m.first, m.second, point) in table <==> point == m.point
  {
    var other := Mapping(m.first, m.second, point);
    if other in table {
      var i :| 0 <= i < |table| && table[i] == m;
      var j :| 0 <= j < |table| && table[j] == other;
    }
  }
}
