/**
 The bounded caller queue between a paced sensor producer and one consumer.

 A row records the fate of one released observation.  The source shares the row
 object between the list of rows and the queued arrival; here an arrival carries
 the row's position in the append-only list instead.
 */
module CallerQueues {
  import opened Results

  datatype Decision =
    | Pending | Admitted
    | Completed | Cancelled | Failed | Superseded
    | StaleDrop | FutureDrop | BacklogDrop | CoalescedDrop | CancelDrop
  {
    predicate Terminal() { Completed? || Cancelled? || Failed? || Superseded? }
    predicate CallerDrop() { StaleDrop? || FutureDrop? || BacklogDrop? || CoalescedDrop? || CancelDrop? }
  }

  datatype Row = Row(sampleIndex: int, sourceNs: int, enqueueNs: int, admitted: bool, decision: Decision)

  datatype Arrival = Arrival(index: int, sourceNs: int, slot: nat)

  datatype Sample = Sample(monotonicNs: int, queued: nat, processing: nat, total: nat)

  /** Everything the queue's lock protects. */
  datatype Contents = Contents(pending: seq<Arrival>, processing: nat, rows: seq<Row>, backlog: seq<Sample>)

  function FreshnessDecision(sourceNs: int, nowNs: int, maximumAge: int): (reason: Option<Decision>)
    ensures reason.None? <==> 0 <= nowNs - sourceNs <= maximumAge
    ensures reason.Some? ==> reason.value == if sourceNs > nowNs then FutureDrop else StaleDrop
  {
    if sourceNs > nowNs then Some(FutureDrop)
    else if nowNs - sourceNs > maximumAge then Some(StaleDrop)
    else None
  }

  predicate IsFresh(a: Arrival, nowNs: int, maximumAge: int) {
    0 <= nowNs - a.sourceNs <= maximumAge
  }

  // ---------------------------------------------------------------------------
  // LATEST selection as the offline replay states it
  // ---------------------------------------------------------------------------

  function Fresh(arrivals: seq<Arrival>, nowNs: int, maximumAge: int): seq<Arrival> {
    if arrivals == [] then []
    else
      var before := Fresh(arrivals[..|arrivals| - 1], nowNs, maximumAge);
      var last := arrivals[|arrivals| - 1];
      if IsFresh(last, nowNs, maximumAge) then before + [last] else before
  }

  /** The order of `(source_ns, index)` keys. */
  predicate Newer(a: Arrival, b: Arrival) {
    a.sourceNs > b.sourceNs || (a.sourceNs == b.sourceNs && a.index > b.index)
  }

  /** `max` over the keys keeps the first of equal elements. */
  function Newest(arrivals: seq<Arrival>): Arrival
    requires arrivals != []
  {
    if |arrivals| == 1 then arrivals[0]
    else
      var best := Newest(arrivals[..|arrivals| - 1]);
      var last := arrivals[|arrivals| - 1];
      if Newer(last, best) then last else best
  }

  function LatestFresh(arrivals: seq<Arrival>, nowNs: int, maximumAge: int): Option<Arrival> {
    var eligible := Fresh(arrivals, nowNs, maximumAge);
    if eligible == [] then None else Some(Newest(eligible))
  }

  lemma {:induction false} FreshMembers(arrivals: seq<Arrival>, nowNs: int, maximumAge: int)
    ensures forall a :: a in Fresh(arrivals, nowNs, maximumAge) <==> a in arrivals && IsFresh(a, nowNs, maximumAge)
  {
    if arrivals == [] {
    } else {
      FreshMembers(arrivals[..|arrivals| - 1], nowNs, maximumAge);
      assert arrivals == arrivals[..|arrivals| - 1] + [arrivals[|arrivals| - 1]];
    }
  }

  lemma {:induction false} NewestIsMaximal(arrivals: seq<Arrival>)
    requires arrivals != []
    ensures Newest(arrivals) in arrivals
    ensures forall a :: a in arrivals ==> !Newer(a, Newest(arrivals))
  {
    if |arrivals| > 1 {
      NewestIsMaximal(arrivals[..|arrivals| - 1]);
      assert arrivals == arrivals[..|arrivals| - 1] + [arrivals[|arrivals| - 1]];
    }
  }

  /** LATEST picks a fresh observation no fresh one is newer than, and finds one whenever there is one. */
  lemma LatestFreshIsNewestFresh(arrivals: seq<Arrival>, nowNs: int, maximumAge: int)
    ensures var chosen := LatestFresh(arrivals, nowNs, maximumAge);
      && (chosen.None? <==> forall a :: a in arrivals ==> !IsFresh(a, nowNs, maximumAge))
      && (chosen.Some? ==>
            && chosen.value in arrivals && IsFresh(chosen.value, nowNs, maximumAge)
            && forall a :: a in arrivals && IsFresh(a, nowNs, maximumAge) ==> !Newer(a, chosen.value))
  {
    FreshMembers(arrivals, nowNs, maximumAge);
    var eligible := Fresh(arrivals, nowNs, maximumAge);
    if eligible != [] {
      assert eligible[0] in eligible;
      NewestIsMaximal(eligible);
    }
  }

  // ---------------------------------------------------------------------------
  // What each operation does to the contents
  // ---------------------------------------------------------------------------

  ghost predicate Ordered(pending: seq<Arrival>, rowCount: nat) {
    && (forall k :: 0 <= k < |pending| ==> pending[k].slot < rowCount)
    && (forall k, l :: 0 <= k < l < |pending| ==> pending[k].slot < pending[l].slot)
  }

  predicate HaveRows(arrivals: seq<Arrival>, rowCount: nat) {
    forall k :: 0 <= k < |arrivals| ==> arrivals[k].slot < rowCount
  }

  function Sampled(c: Contents, nowNs: int): Contents {
    c.(backlog := c.backlog + [Sample(nowNs, |c.pending|, c.processing, |c.pending| + c.processing)])
  }

  /** The newest arrival is dropped on overflow; queued observations keep their order. */
  function Emitted(c: Contents, limit: nat, index: int, sourceNs: int, enqueueNs: int): Contents {
    var full := |c.pending| + c.processing >= limit;
    var row := Row(index, sourceNs, enqueueNs, false, if full then BacklogDrop else Pending);
    var next := if full then c.pending else c.pending + [Arrival(index, sourceNs, |c.rows|)];
    Sampled(c.(rows := c.rows + [row], pending := next), enqueueNs)
  }

  function Finished(c: Contents, nowNs: int): Contents {
    Sampled(c.(processing := 0), nowNs)
  }

  /** Rows no taken arrival owns stay as they are. */
  ghost predicate Untouched(rows: seq<Row>, after: seq<Row>, taken: seq<Arrival>) {
    && |after| == |rows|
    && forall i :: 0 <= i < |rows| && (forall k :: 0 <= k < |taken| ==> taken[k].slot != i) ==> after[i] == rows[i]
  }

  ghost predicate CancelledTo(c: Contents, after: Contents, nowNs: int) {
    && AllCancelled(c.rows, after.rows, c.pending)
    && after == Sampled(c.(pending := [], rows := after.rows), nowNs)
  }

  ghost predicate AllCancelled(rows: seq<Row>, after: seq<Row>, taken: seq<Arrival>) {
    && Untouched(rows, after, taken)
    && forall k :: 0 <= k < |taken| && taken[k].slot < |rows| ==>
         after[taken[k].slot] == rows[taken[k].slot].(decision := CancelDrop)
  }

  /** What popping makes of one taken arrival's row; `kept` are the arrivals not given up. */
  ghost function Fate(row: Row, a: Arrival, nowNs: int, maximumAge: int, kept: set<Arrival>): Row {
    if a.sourceNs > nowNs then row.(decision := FutureDrop)
    else if nowNs - a.sourceNs > maximumAge then row.(decision := StaleDrop)
    else if a in kept then row
    else row.(decision := CoalescedDrop)
  }

  ghost predicate AllFated(rows: seq<Row>, after: seq<Row>, taken: seq<Arrival>, nowNs: int, maximumAge: int,
          kept: set<Arrival>)
  {
    && Untouched(rows, after, taken)
    && forall k :: 0 <= k < |taken| && taken[k].slot < |rows| ==>
         after[taken[k].slot] == Fate(rows[taken[k].slot], taken[k], nowNs, maximumAge, kept)
  }

  ghost function Members(arrivals: seq<Arrival>): set<Arrival> {
    set a | a in arrivals
  }

  lemma PrefixIsOrdered(pending: seq<Arrival>, n: nat, rowCount: nat)
    requires n <= |pending| && Ordered(pending, rowCount)
    ensures Ordered(pending[..n], rowCount)
  {
  }

  /** Taking one more arrival: unfresh ones are settled on the spot, fresh ones are kept for now. */
  lemma TakeStep(rows: seq<Row>, after: seq<Row>, arrivals: seq<Arrival>, n: nat, nowNs: int, maximumAge: int)
    requires n < |arrivals| && Ordered(arrivals, |rows|)
    requires AllFated(rows, after, arrivals[..n], nowNs, maximumAge, Members(arrivals[..n]))
    ensures var a := arrivals[n];
      AllFated(rows, after[a.slot := Fate(after[a.slot], a, nowNs, maximumAge, {a})], arrivals[..n + 1],
               nowNs, maximumAge,
               Members(arrivals[..n + 1]))
  {
    var taken := arrivals[..n + 1];
    assert taken == arrivals[..n] + [arrivals[n]];
    var a := arrivals[n];
    var next := after[a.slot := Fate(after[a.slot], a, nowNs, maximumAge, {a})];
    forall i | 0 <= i < |rows| && (forall k :: 0 <= k < |taken| ==> taken[k].slot != i) ensures next[i] == rows[i] {
      assert taken[n].slot != i;
      assert forall k :: 0 <= k < n ==> arrivals[..n][k] == taken[k];
    }
    forall k | 0 <= k < |taken|
      ensures next[taken[k].slot] == Fate(rows[taken[k].slot], taken[k], nowNs, maximumAge, Members(taken))
    {
      if k < n {
        assert arrivals[..n][k] == taken[k];
      } else {
        assert forall j :: 0 <= j < n ==> arrivals[..n][j].slot != a.slot;
      }
    }
  }

  /** Giving up one kept arrival. */
  lemma CoalesceStep(rows: seq<Row>, after: seq<Row>, taken: seq<Arrival>, a: Arrival, nowNs: int, maximumAge: int,
          kept: set<Arrival>)
    requires Ordered(taken, |rows|) && a in taken && IsFresh(a, nowNs, maximumAge)
    requires AllFated(rows, after, taken, nowNs, maximumAge, kept)
    ensures AllFated(rows, after[a.slot := after[a.slot].(decision := CoalescedDrop)], taken, nowNs, maximumAge,
            kept - {a})
  {
    var k :| 0 <= k < |taken| && taken[k] == a;
    assert after[taken[k].slot] == Fate(rows[taken[k].slot], taken[k], nowNs, maximumAge, kept);
  }

  // The rows after each of the three loops, one row update at a time.

  function DropUnfresh(rows: seq<Row>, taken: seq<Arrival>, nowNs: int, maximumAge: int): (after: seq<Row>)
    ensures |after| == |rows|
  {
    if taken == [] then rows
    else
      var before := DropUnfresh(rows, taken[..|taken| - 1], nowNs, maximumAge);
      var a := taken[|taken| - 1];
      var reason := FreshnessDecision(a.sourceNs, nowNs, maximumAge);
      if reason.Some? && a.slot < |rows| then before[a.slot := before[a.slot].(decision := reason.value)] else before
  }

  function DropOthers(rows: seq<Row>, eligible: seq<Arrival>, selected: Arrival): (after: seq<Row>)
    ensures |after| == |rows|
  {
    if eligible == [] then rows
    else
      var before := DropOthers(rows, eligible[..|eligible| - 1], selected);
      var a := eligible[|eligible| - 1];
      if a != selected && a.slot < |rows| then before[a.slot := before[a.slot].(decision := CoalescedDrop)] else before
  }

  function DropCancelled(rows: seq<Row>, taken: seq<Arrival>): (after: seq<Row>)
    ensures |after| == |rows|
  {
    if taken == [] then rows
    else
      var before := DropCancelled(rows, taken[..|taken| - 1]);
      var a := taken[|taken| - 1];
      if a.slot < |rows| then before[a.slot := before[a.slot].(decision := CancelDrop)] else before
  }

  /** One more arrival taken. */
  lemma DropUnfreshStep(rows: seq<Row>, arrivals: seq<Arrival>, n: nat, nowNs: int, maximumAge: int)
    requires n < |arrivals|
    ensures var a, before := arrivals[n], DropUnfresh(rows, arrivals[..n], nowNs, maximumAge);
      DropUnfresh(rows, arrivals[..n + 1], nowNs, maximumAge) ==
        if a.slot < |rows| then before[a.slot := Fate(before[a.slot], a, nowNs, maximumAge, {a})] else before
  {
    assert arrivals[..n + 1][..n] == arrivals[..n];
  }

  lemma DropCancelledStep(rows: seq<Row>, arrivals: seq<Arrival>, n: nat)
    requires n < |arrivals|
    ensures var a, before := arrivals[n], DropCancelled(rows, arrivals[..n]);
      DropCancelled(rows, arrivals[..n + 1]) ==
        if a.slot < |rows| then before[a.slot := before[a.slot].(decision := CancelDrop)] else before
  {
    assert arrivals[..n + 1][..n] == arrivals[..n];
  }

  lemma {:induction false} DropUnfreshFates(rows: seq<Row>, taken: seq<Arrival>, nowNs: int, maximumAge: int)
    requires Ordered(taken, |rows|)
    ensures AllFated(rows, DropUnfresh(rows, taken, nowNs, maximumAge), taken, nowNs, maximumAge, Members(taken))
  {
    if taken == [] {
    } else {
      var n := |taken| - 1;
      PrefixIsOrdered(taken, n, |rows|);
      DropUnfreshFates(rows, taken[..n], nowNs, maximumAge);
      DropUnfreshStep(rows, taken, n, nowNs, maximumAge);
      TakeStep(rows, DropUnfresh(rows, taken[..n], nowNs, maximumAge), taken, n, nowNs, maximumAge);
      assert taken[..n + 1] == taken;
    }
  }

  lemma {:induction false} DropOthersFates(rows: seq<Row>, after: seq<Row>, taken: seq<Arrival>,
          eligible: seq<Arrival>, selected: Arrival, nowNs: int, maximumAge: int)
    requires Ordered(taken, |rows|) && AllFated(rows, after, taken, nowNs, maximumAge, Members(taken))
    requires forall a :: a in eligible ==> a in taken && IsFresh(a, nowNs, maximumAge)
    ensures AllFated(rows, DropOthers(after, eligible, selected), taken, nowNs, maximumAge,
                     Members(taken) - (Members(eligible) - {selected}))
  {
    if eligible == [] {
      assert Members(taken) - (Members(eligible) - {selected}) == Members(taken);
    } else {
      var n := |eligible| - 1;
      var a := eligible[n];
      DropOthersFates(rows, after, taken, eligible[..n], selected, nowNs, maximumAge);
      assert eligible == eligible[..n] + [a];
      var kept := Members(taken) - (Members(eligible[..n]) - {selected});
      if a != selected {
        CoalesceStep(rows, DropOthers(after, eligible[..n], selected), taken, a, nowNs, maximumAge, kept);
        assert kept - {a} == Members(taken) - (Members(eligible) - {selected});
      } else {
        assert kept == Members(taken) - (Members(eligible) - {selected});
      }
    }
  }

  /** Both loops of `pop` together: one decision for every arrival taken. */
  lemma PopFates(rows: seq<Row>, taken: seq<Arrival>, nowNs: int, maximumAge: int)
    requires Ordered(taken, |rows|)
    ensures LatestFresh(taken, nowNs, maximumAge).None? ==>
              AllFated(rows, DropUnfresh(rows, taken, nowNs, maximumAge), taken, nowNs, maximumAge, {})
    ensures LatestFresh(taken, nowNs, maximumAge).Some? ==>
              var selected := LatestFresh(taken, nowNs, maximumAge).value;
              AllFated(rows,
                       DropOthers(DropUnfresh(rows, taken, nowNs, maximumAge),
                                  Fresh(taken, nowNs, maximumAge), selected),
                       taken, nowNs, maximumAge, {selected})
  {
    DropUnfreshFates(rows, taken, nowNs, maximumAge);
    FreshMembers(taken, nowNs, maximumAge);
    var eligible := Fresh(taken, nowNs, maximumAge);
    if eligible == [] {
      forall k | 0 <= k < |taken| ensures !IsFresh(taken[k], nowNs, maximumAge) {
        assert taken[k] in taken;
      }
    } else {
      var selected := Newest(eligible);
      var after := DropUnfresh(rows, taken, nowNs, maximumAge);
      DropOthersFates(rows, after, taken, eligible, selected, nowNs, maximumAge);
      NewestIsMaximal(eligible);
      SameFates(rows, DropOthers(after, eligible, selected), taken, nowNs, maximumAge,
                Members(taken) - (Members(eligible) - {selected}), {selected});
    }
  }

  /** Only the fresh arrivals' membership in `kept` matters. */
  lemma SameFates(rows: seq<Row>, after: seq<Row>, taken: seq<Arrival>, nowNs: int, maximumAge: int,
          kept: set<Arrival>, same: set<Arrival>)
    requires Ordered(taken, |rows|) && AllFated(rows, after, taken, nowNs, maximumAge, kept)
    requires forall a :: a in taken && IsFresh(a, nowNs, maximumAge) ==> (a in kept <==> a in same)
    ensures AllFated(rows, after, taken, nowNs, maximumAge, same)
  {
    forall k | 0 <= k < |taken|
      ensures after[taken[k].slot] == Fate(rows[taken[k].slot], taken[k], nowNs, maximumAge, same)
    {
      assert taken[k] in taken;
    }
  }

  lemma {:induction false} DropCancelledFates(rows: seq<Row>, taken: seq<Arrival>)
    requires Ordered(taken, |rows|)
    ensures AllCancelled(rows, DropCancelled(rows, taken), taken)
  {
    if taken == [] {
    } else {
      var n := |taken| - 1;
      PrefixIsOrdered(taken, n, |rows|);
      DropCancelledFates(rows, taken[..n]);
      DropCancelledStep(rows, taken, n);
      CancelStep(rows, DropCancelled(rows, taken[..n]), taken, n);
      assert taken[..n + 1] == taken;
    }
  }

  lemma CancelStep(rows: seq<Row>, after: seq<Row>, arrivals: seq<Arrival>, n: nat)
    requires n < |arrivals| && Ordered(arrivals, |rows|) && AllCancelled(rows, after, arrivals[..n])
    ensures var a := arrivals[n];
      AllCancelled(rows, after[a.slot := after[a.slot].(decision := CancelDrop)], arrivals[..n + 1])
  {
    var taken, a := arrivals[..n + 1], arrivals[n];
    assert taken == arrivals[..n] + [a];
    var next := after[a.slot := after[a.slot].(decision := CancelDrop)];
    forall i | 0 <= i < |rows| && (forall k :: 0 <= k < |taken| ==> taken[k].slot != i) ensures next[i] == rows[i] {
      assert taken[n].slot != i;
      assert forall k :: 0 <= k < n ==> arrivals[..n][k] == taken[k];
    }
    forall k | 0 <= k < |taken| ensures next[taken[k].slot] == rows[taken[k].slot].(decision := CancelDrop) {
      if k < n {
        assert arrivals[..n][k] == taken[k];
      } else {
        assert forall j :: 0 <= j < n ==> arrivals[..n][j].slot != a.slot;
      }
    }
  }

  /** How many arrivals one pop takes: all of them for LATEST, else up to the first fresh one. */
  function TakenCount(pending: seq<Arrival>, nowNs: int, maximumAge: int, latest: bool): (n: nat)
    ensures n <= |pending|
    ensures latest ==> n == |pending|
    ensures !latest ==> forall k :: 0 <= k < n - 1 ==> !IsFresh(pending[k], nowNs, maximumAge)
    ensures !latest && n < |pending| ==> n > 0 && IsFresh(pending[n - 1], nowNs, maximumAge)
  {
    if latest || pending == [] then |pending|
    else if IsFresh(pending[0], nowNs, maximumAge) then 1
    else 1 + TakenCount(pending[1..], nowNs, maximumAge, latest)
  }

  lemma CountStep(pending: seq<Arrival>, n: nat, nowNs: int, maximumAge: int, latest: bool)
    requires n < |pending|
    ensures pending[n..][1..] == pending[n + 1..]
    ensures TakenCount(pending[n..], nowNs, maximumAge, latest) ==
      if !latest && IsFresh(pending[n], nowNs, maximumAge) then 1
      else 1 + TakenCount(pending[n + 1..], nowNs, maximumAge, latest)
  {
  }

  lemma FreshHaveRows(pending: seq<Arrival>, n: nat, rowCount: nat, nowNs: int, maximumAge: int)
    requires n <= |pending| && HaveRows(pending, rowCount)
    ensures HaveRows(Fresh(pending[..n], nowNs, maximumAge), rowCount)
  {
    FreshMembers(pending[..n], nowNs, maximumAge);
    var some := Fresh(pending[..n], nowNs, maximumAge);
    forall k | 0 <= k < |some| ensures some[k].slot < rowCount {
      assert some[k] in some;
    }
  }

  /** The first `n` arrivals are taken: these are eligible, and these are the rows. */
  ghost predicate TakenUpTo(pending: seq<Arrival>, n: nat, nowNs: int, maximumAge: int, eligible: seq<Arrival>,
          rows: seq<Row>, after: seq<Row>)
    requires n <= |pending|
  {
    eligible == Fresh(pending[..n], nowNs, maximumAge) && after == DropUnfresh(rows, pending[..n], nowNs, maximumAge)
  }

  lemma TakeOneMore(pending: seq<Arrival>, n: nat, nowNs: int, maximumAge: int, eligible: seq<Arrival>,
          rows: seq<Row>, after: seq<Row>)
    requires n < |pending| && pending[n].slot < |rows|
             && TakenUpTo(pending, n, nowNs, maximumAge, eligible, rows, after)
    ensures var a, reason := pending[n], FreshnessDecision(pending[n].sourceNs, nowNs, maximumAge);
      && (reason.Some? ==>
            TakenUpTo(pending, n + 1, nowNs, maximumAge, eligible, rows,
              after[a.slot := after[a.slot].(decision := reason.value)]))
      && (reason.None? ==> TakenUpTo(pending, n + 1, nowNs, maximumAge, eligible + [a], rows, after))
  {
    assert pending[..n + 1][..n] == pending[..n];
  }

  ghost predicate PoppedTo(c: Contents, after: Contents, nowNs: int, maximumAge: int, latest: bool,
          item: Option<Arrival>)
  {
    var n := TakenCount(c.pending, nowNs, maximumAge, latest);
    var taken := c.pending[..n];
    && item == LatestFresh(taken, nowNs, maximumAge)
    && after.pending == c.pending[n..]
    && AllFated(c.rows, after.rows, taken, nowNs, maximumAge, if item.Some? then {item.value} else {})
    && after == Sampled(c.(pending := after.pending, rows := after.rows,
                           processing := if item.Some? then 1 else c.processing), nowNs)
  }

  /** The same step as a function: the two loops of `pop` in sequence. */
  function Popped(c: Contents, nowNs: int, maximumAge: int, latest: bool): (Contents, Option<Arrival>) {
    var n := TakenCount(c.pending, nowNs, maximumAge, latest);
    var taken := c.pending[..n];
    var item := LatestFresh(taken, nowNs, maximumAge);
    var unfreshDropped := DropUnfresh(c.rows, taken, nowNs, maximumAge);
    var next := c.(pending := c.pending[n..], rows := unfreshDropped);
    if item.None? then (Sampled(next, nowNs), item)
    else
      var rows := DropOthers(unfreshDropped, Fresh(taken, nowNs, maximumAge), item.value);
      (Sampled(next.(rows := rows, processing := 1), nowNs), item)
  }

  function CancelledAll(c: Contents, nowNs: int): Contents {
    Sampled(c.(pending := [], rows := DropCancelled(c.rows, c.pending)), nowNs)
  }

  /** The bound the queue is named for, at every moment and in every recorded sample. */
  ghost predicate Bounded(c: Contents, limit: nat) {
    && Ordered(c.pending, |c.rows|)
    && |c.pending| + c.processing <= limit
    && forall b :: b in c.backlog ==> b.total == b.queued + b.processing <= limit
  }

  /** What one pop takes, returns and writes, and that it keeps the bound. */
  lemma PopMeaning(c: Contents, limit: nat, nowNs: int, maximumAge: int, latest: bool)
    requires Bounded(c, limit)
    ensures var (after, item) := Popped(c, nowNs, maximumAge, latest);
      PoppedTo(c, after, nowNs, maximumAge, latest, item) && Bounded(after, limit)
  {
    var n := TakenCount(c.pending, nowNs, maximumAge, latest);
    var taken := c.pending[..n];
    PrefixIsOrdered(c.pending, n, |c.rows|);
    PopFates(c.rows, taken, nowNs, maximumAge);
    var (after, item) := Popped(c, nowNs, maximumAge, latest);
    assert item.Some? ==> taken != [] by {
      LatestFreshIsNewestFresh(taken, nowNs, maximumAge);
    }
    var before := c.(pending := after.pending, rows := after.rows, processing := after.processing);
    assert after == Sampled(before, nowNs);
    SampleIsBounded(before, limit, nowNs);
  }

  lemma SampleIsBounded(c: Contents, limit: nat, nowNs: int)
    requires Bounded(c, limit)
    ensures Bounded(Sampled(c, nowNs), limit)
  {
    var after := Sampled(c, nowNs);
    assert forall b :: b in after.backlog ==> b in c.backlog || b == after.backlog[|c.backlog|];
  }

  lemma PopKeepsBound(c: Contents, limit: nat, nowNs: int, maximumAge: int, latest: bool)
    requires Bounded(c, limit)
    ensures Bounded(Popped(c, nowNs, maximumAge, latest).0, limit)
  {
    PopMeaning(c, limit, nowNs, maximumAge, latest);
  }

  lemma EmitKeepsBound(c: Contents, limit: nat, index: int, sourceNs: int, enqueueNs: int)
    requires Bounded(c, limit)
    ensures Bounded(Emitted(c, limit, index, sourceNs, enqueueNs), limit)
  {
    var after := Emitted(c, limit, index, sourceNs, enqueueNs);
    assert forall b :: b in after.backlog ==> b in c.backlog || b == after.backlog[|c.backlog|];
  }

  lemma CancelMeaning(c: Contents, limit: nat, nowNs: int)
    requires Bounded(c, limit)
    ensures CancelledTo(c, CancelledAll(c, nowNs), nowNs) && Bounded(CancelledAll(c, nowNs), limit)
  {
    DropCancelledFates(c.rows, c.pending);
  }

  // ---------------------------------------------------------------------------
  // What a caller sees of each operation
  // ---------------------------------------------------------------------------

  /** One sample is recorded, of what is then queued and in process. */
  ghost predicate Records(c: Contents, after: Contents, nowNs: int) {
    after.backlog == c.backlog
      + [Sample(nowNs, |after.pending|, after.processing, |after.pending| + after.processing)]
  }

  /** Below the limit the observation is queued last; at the limit it is dropped.  Older rows stay. */
  ghost predicate Emits(c: Contents, after: Contents, limit: nat, index: int, sourceNs: int, enqueueNs: int) {
    && |after.rows| == |c.rows| + 1 && (forall i | 0 <= i < |c.rows| :: after.rows[i] == c.rows[i])
    && after.processing == c.processing && Records(c, after, enqueueNs)
    && (if |c.pending| + c.processing < limit then
          && after.rows[|c.rows|] == Row(index, sourceNs, enqueueNs, false, Pending)
          && after.pending == c.pending + [Arrival(index, sourceNs, |c.rows|)]
        else
          && after.rows[|c.rows|] == Row(index, sourceNs, enqueueNs, false, BacklogDrop)
          && after.pending == c.pending)
  }

  lemma EmitMeaning(c: Contents, limit: nat, index: int, sourceNs: int, enqueueNs: int)
    ensures Emits(c, Emitted(c, limit, index, sourceNs, enqueueNs), limit, index, sourceNs, enqueueNs)
  {
  }

  /** How many arrivals are taken off the front: all, or those up to the first that is not too old or too new. */
  ghost predicate Takes(pending: seq<Arrival>, n: nat, nowNs: int, maximumAge: int, latest: bool) {
    && n <= |pending|
    && (latest ==> n == |pending|)
    && (!latest ==> forall k | 0 <= k < n - 1 :: !(0 <= nowNs - pending[k].sourceNs <= maximumAge))
    && (!latest && n < |pending| ==> n > 0 && 0 <= nowNs - pending[n - 1].sourceNs <= maximumAge)
  }

  /** The newest of the first `n` arrivals that are neither too old nor too new, if there is one. */
  ghost predicate Picks(pending: seq<Arrival>, n: nat, nowNs: int, maximumAge: int, item: Option<Arrival>)
    requires n <= |pending|
  {
    match item
    case None => forall k | 0 <= k < n :: !(0 <= nowNs - pending[k].sourceNs <= maximumAge)
    case Some(a) =>
      && 0 <= nowNs - a.sourceNs <= maximumAge && a in pending[..n]
      && forall k | 0 <= k < n && 0 <= nowNs - pending[k].sourceNs <= maximumAge ::
           pending[k].sourceNs < a.sourceNs || (pending[k].sourceNs == a.sourceNs && pending[k].index <= a.index)
  }

  /** The decision about the row of an arrival that was taken. */
  ghost predicate Settles(row: Row, after: Row, a: Arrival, nowNs: int, maximumAge: int, item: Option<Arrival>) {
    && after == row.(decision := after.decision)
    && (nowNs < a.sourceNs ==> after.decision == FutureDrop)
    && (nowNs > a.sourceNs + maximumAge && nowNs >= a.sourceNs ==> after.decision == StaleDrop)
    && (0 <= nowNs - a.sourceNs <= maximumAge ==>
          after.decision == if item == Some(a) then row.decision else CoalescedDrop)
  }

  ghost predicate OtherRowsStay(rows: seq<Row>, after: seq<Row>, pending: seq<Arrival>, n: nat)
    requires n <= |pending|
  {
    && |after| == |rows|
    && forall i | 0 <= i < |rows| && (forall k :: 0 <= k < n ==> pending[k].slot != i) :: after[i] == rows[i]
  }

  ghost predicate Pops(c: Contents, after: Contents, nowNs: int, maximumAge: int, latest: bool, item: Option<Arrival>) {
    exists n: nat :: Takes(c.pending, n, nowNs, maximumAge, latest) && PopsFirst(c, after, n, nowNs, maximumAge, item)
  }

  ghost predicate PopsFirst(c: Contents, after: Contents, n: nat, nowNs: int, maximumAge: int, item: Option<Arrival>)
    requires n <= |c.pending|
  {
    && after.pending == c.pending[n..]
    && Picks(c.pending, n, nowNs, maximumAge, item)
    && after.processing == (if item.Some? then 1 else c.processing)
    && Records(c, after, nowNs)
    && OtherRowsStay(c.rows, after.rows, c.pending, n)
    && forall k | 0 <= k < n && c.pending[k].slot < |c.rows| ::
         Settles(c.rows[c.pending[k].slot], after.rows[c.pending[k].slot], c.pending[k], nowNs, maximumAge, item)
  }

  /** A pop, as a caller sees it. */
  lemma PopIsSeen(c: Contents, limit: nat, nowNs: int, maximumAge: int, latest: bool)
    requires Bounded(c, limit)
    ensures var (after, item) := Popped(c, nowNs, maximumAge, latest);
      Pops(c, after, nowNs, maximumAge, latest, item)
  {
    PopMeaning(c, limit, nowNs, maximumAge, latest);
    var (after, item) := Popped(c, nowNs, maximumAge, latest);
    PoppedIsSeen(c, after, nowNs, maximumAge, latest, item);
  }

  lemma PoppedIsSeen(c: Contents, after: Contents, nowNs: int, maximumAge: int, latest: bool, item: Option<Arrival>)
    requires PoppedTo(c, after, nowNs, maximumAge, latest, item)
    ensures Pops(c, after, nowNs, maximumAge, latest, item)
  {
    var n := TakenCount(c.pending, nowNs, maximumAge, latest);
    PickIsSeen(c.pending, n, nowNs, maximumAge);
    SettlementIsSeen(c, after, n, nowNs, maximumAge, item);
    assert Takes(c.pending, n, nowNs, maximumAge, latest);
    assert PopsFirst(c, after, n, nowNs, maximumAge, item);
  }

  lemma PickIsSeen(pending: seq<Arrival>, n: nat, nowNs: int, maximumAge: int)
    requires n <= |pending|
    ensures Picks(pending, n, nowNs, maximumAge, LatestFresh(pending[..n], nowNs, maximumAge))
  {
    var taken := pending[..n];
    LatestFreshIsNewestFresh(taken, nowNs, maximumAge);
    forall k | 0 <= k < n ensures pending[k] in taken {
      assert taken[k] == pending[k];
    }
  }

  lemma SettlementIsSeen(c: Contents, after: Contents, n: nat, nowNs: int, maximumAge: int, item: Option<Arrival>)
    requires n <= |c.pending|
    requires AllFated(c.rows, after.rows, c.pending[..n], nowNs, maximumAge, if item.Some? then {item.value} else {})
    ensures OtherRowsStay(c.rows, after.rows, c.pending, n)
    ensures forall k | 0 <= k < n && c.pending[k].slot < |c.rows| ::
      Settles(c.rows[c.pending[k].slot], after.rows[c.pending[k].slot], c.pending[k], nowNs, maximumAge, item)
  {
    var taken := c.pending[..n];
    assert forall k | 0 <= k < n :: taken[k] == c.pending[k];
  }

  ghost predicate Cancels(c: Contents, after: Contents, nowNs: int) {
    && after.pending == [] && after.processing == c.processing && Records(c, after, nowNs)
    && OtherRowsStay(c.rows, after.rows, c.pending, |c.pending|)
    && forall k | 0 <= k < |c.pending| && c.pending[k].slot < |c.rows| ::
         after.rows[c.pending[k].slot] == c.rows[c.pending[k].slot].(decision := CancelDrop)
  }

  lemma CancelIsSeen(c: Contents, limit: nat, nowNs: int)
    requires Bounded(c, limit)
    ensures Cancels(c, CancelledAll(c, nowNs), nowNs)
  {
    CancelMeaning(c, limit, nowNs);
  }

  /** The bounded queue object; every method body runs under its lock. */
  class CallerQueue {
    const limit: nat
    const maximumAge: int
    var pending: seq<Arrival>
    var processing: nat
    var done: bool
    var rows: seq<Row>
    var backlog: seq<Sample>

    constructor (limit: nat, maximumAge: int)
      ensures Valid()
      ensures this.limit == limit && this.maximumAge == maximumAge && !done
      ensures View() == Contents([], 0, [], [])
    {
      this.limit, this.maximumAge := limit, maximumAge;
      pending, processing, done, rows, backlog := [], 0, false, [], [];
    }

    ghost function View(): Contents
      reads this
    {
      Contents(pending, processing, rows, backlog)
    }

    ghost predicate Valid()
      reads this
    {
      Bounded(View(), limit)
    }

    method TakeSample(nowNs: int)
      modifies this`backlog
      ensures View() == Sampled(old(View()), nowNs)
    {
      backlog := backlog + [Sample(nowNs, |pending|, processing, |pending| + processing)];
    }

    method Emit(index: int, sourceNs: int, enqueueNs: int)
      requires Valid()
      modifies this
      ensures Valid() && done == old(done)
      ensures View() == Emitted(old(View()), limit, index, sourceNs, enqueueNs)
      ensures Emits(old(View()), View(), limit, index, sourceNs, enqueueNs)
    {
      ghost var before := View();
      var row := Row(index, sourceNs, enqueueNs, false, Pending);
      var slot := |rows|;
      rows := rows + [row];
      if |pending| + processing >= limit {
        rows := rows[slot := row.(decision := BacklogDrop)];
      } else {
        pending := pending + [Arrival(index, sourceNs, slot)];
      }
      TakeSample(enqueueNs);
      assert View() == Emitted(before, limit, index, sourceNs, enqueueNs);
      EmitKeepsBound(before, limit, index, sourceNs, enqueueNs);
      EmitMeaning(before, limit, index, sourceNs, enqueueNs);
    }

    /** `popleft().row.update(decision=...)` */
    method SettleRow(a: Arrival, decision: Decision)
      requires a.slot < |rows|
      modifies this`rows
      ensures rows == old(rows)[a.slot := old(rows)[a.slot].(decision := decision)]
    {
      rows := rows[a.slot := rows[a.slot].(decision := decision)];
    }

    method Pop(nowNs: int, latest: bool) returns (item: Option<Arrival>)
      requires Valid()
      modifies this
      ensures Valid() && done == old(done)
      ensures (View(), item) == Popped(old(View()), nowNs, maximumAge, latest)
      ensures Pops(old(View()), View(), nowNs, maximumAge, latest, item)
    {
      ghost var before := View();
      PopIsSeen(before, limit, nowNs, maximumAge, latest);
      PopKeepsBound(before, limit, nowNs, maximumAge, latest);
      item := Take(nowNs, latest);
      assert View() == Popped(before, nowNs, maximumAge, latest).0;
    }

    /** The two loops of `pop`, and the sample behind them. */
    method Take(nowNs: int, latest: bool) returns (item: Option<Arrival>)
      requires HaveRows(pending, |rows|)
      modifies this`pending, this`rows, this`processing, this`backlog
      ensures (View(), item) == Popped(old(View()), nowNs, maximumAge, latest)
    {
      FreshHaveRows(pending, TakenCount(pending, nowNs, maximumAge, latest), |rows|, nowNs, maximumAge);
      var eligible := TakeEligible(nowNs, latest);
      item := Select(eligible);
      TakeSample(nowNs);
    }

    /** The newest eligible arrival is taken into process, and the others are coalesced. */
    method Select(eligible: seq<Arrival>) returns (item: Option<Arrival>)
      requires HaveRows(eligible, |rows|)
      modifies this`rows, this`processing
      ensures item == if eligible == [] then None else Some(Newest(eligible))
      ensures rows == if eligible == [] then old(rows) else DropOthers(old(rows), eligible, Newest(eligible))
      ensures processing == if eligible == [] then old(processing) else 1
    {
      if eligible == [] {
        return None;
      }
      var selected := SelectNewest(eligible);
      CoalesceOthers(eligible, selected);
      processing := 1;
      return Some(selected);
    }

    /** The second loop of `pop`: every eligible arrival but the selected one is coalesced. */
    method CoalesceOthers(eligible: seq<Arrival>, selected: Arrival)
      requires HaveRows(eligible, |rows|)
      modifies this`rows
      ensures rows == DropOthers(old(rows), eligible, selected)
    {
      for i := 0 to |eligible|
        invariant rows == DropOthers(old(rows), eligible[..i], selected)
      {
        var previous := eligible[i];
        assert eligible[..i + 1] == eligible[..i] + [previous];
        if previous != selected {
          SettleRow(previous, CoalescedDrop);
        }
      }
      assert eligible[..|eligible|] == eligible;
    }

    /** The first loop of `pop`. */
    method TakeEligible(nowNs: int, latest: bool) returns (eligible: seq<Arrival>)
      requires HaveRows(pending, |rows|)
      modifies this`pending, this`rows
      ensures var n := TakenCount(old(pending), nowNs, maximumAge, latest);
        pending == old(pending)[n..] && TakenUpTo(old(pending), n, nowNs, maximumAge, eligible, old(rows), rows)
    {
      ghost var before, n := pending, 0;
      eligible := [];
      while pending != []
        invariant n <= |before| && pending == before[n..]
        invariant TakenUpTo(before, n, nowNs, maximumAge, eligible, old(rows), rows)
        invariant TakenCount(before, nowNs, maximumAge, latest)
                  == n + TakenCount(before[n..], nowNs, maximumAge, latest)
      {
        var next := pending[0];
        TakeOneMore(before, n, nowNs, maximumAge, eligible, old(rows), rows);
        CountStep(before, n, nowNs, maximumAge, latest);
        var reason := FreshnessDecision(next.sourceNs, nowNs, maximumAge);
        n := n + 1;
        pending := pending[1..];
        if reason.Some? {
          SettleRow(next, reason.value);
          continue;
        }
        eligible := eligible + [next];
        if !latest {
          break;
        }
      }
    }

    method SelectNewest(eligible: seq<Arrival>) returns (selected: Arrival)
      requires eligible != []
      ensures selected == Newest(eligible)
    {
      selected := eligible[0];
      for i := 1 to |eligible|
        invariant selected == Newest(eligible[..i])
      {
        assert eligible[..i + 1][..i] == eligible[..i];
        if Newer(eligible[i], selected) {
          selected := eligible[i];
        }
      }
      assert eligible[..|eligible|] == eligible;
    }

    method Finish(nowNs: int)
      requires Valid()
      modifies this
      ensures Valid() && done == old(done)
      ensures View() == Finished(old(View()), nowNs)
      ensures pending == old(pending) && rows == old(rows) && processing == 0 && Records(old(View()), View(), nowNs)
    {
      processing := 0;
      TakeSample(nowNs);
    }

    method CancelPending(nowNs: int)
      requires Valid()
      modifies this
      ensures Valid() && done == old(done)
      ensures View() == CancelledAll(old(View()), nowNs) && Cancels(old(View()), View(), nowNs)
    {
      ghost var view, before, n := View(), pending, 0;
      while pending != []
        invariant n <= |before| && pending == before[n..]
        invariant rows == DropCancelled(old(rows), before[..n])
        invariant processing == old(processing) && done == old(done) && backlog == old(backlog)
      {
        var next := pending[0];
        DropCancelledStep(old(rows), before, n);
        n := n + 1;
        pending := pending[1..];
        SettleRow(next, CancelDrop);
      }
      assert before[..n] == before;
      TakeSample(nowNs);
      CancelMeaning(view, limit, nowNs);
      CancelIsSeen(view, limit, nowNs);
    }

    /** The producer's last act, in its `finally` block. */
    method Close()
      requires Valid()
      modifies this`done
      ensures Valid() && done && View() == old(View())
    {
      done := true;
    }
  }
}
