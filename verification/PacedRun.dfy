/**
 The paced measurement: one producer thread and one consumer thread over the
 caller queue, in any interleaving, followed by the final accounting.

 Clock readings, request outcomes and exceptions are arbitrary, so every
 statement below holds for all of them.
 */
module PacedRun {
  import opened Results
  import opened CallerQueues

  // ---------------------------------------------------------------------------
  // Accounting
  // ---------------------------------------------------------------------------

  function CountOf(rows: seq<Row>, d: Decision): nat {
    if rows == [] then 0
    else CountOf(rows[..|rows| - 1], d) + if rows[|rows| - 1].decision == d then 1 else 0
  }

  function AcceptedCount(rows: seq<Row>): nat {
    if rows == [] then 0
    else AcceptedCount(rows[..|rows| - 1]) + if rows[|rows| - 1].admitted then 1 else 0
  }

  function TerminalCount(rows: seq<Row>): nat {
    CountOf(rows, Completed) + CountOf(rows, Cancelled) + CountOf(rows, Failed) + CountOf(rows, Superseded)
  }

  function DropCount(rows: seq<Row>): nat {
    CountOf(rows, StaleDrop) + CountOf(rows, FutureDrop) + CountOf(rows, BacklogDrop)
    + CountOf(rows, CoalescedDrop) + CountOf(rows, CancelDrop)
  }

  ghost predicate AllSettled(rows: seq<Row>) {
    forall i :: 0 <= i < |rows| ==> rows[i].decision.Terminal() || rows[i].decision.CallerDrop()
  }

  ghost predicate DistinctSamples(rows: seq<Row>) {
    forall i, j :: 0 <= i < j < |rows| ==> rows[i].sampleIndex != rows[j].sampleIndex
  }

  /** Every row is settled once, and as many were accepted as reached a terminal state. */
  ghost predicate Balanced(rows: seq<Row>, planned: nat) {
    && AllSettled(rows)
    && DistinctSamples(rows)
    && AcceptedCount(rows) == TerminalCount(rows)
    && |rows| <= planned
  }

  lemma TerminalCountGrows(rows: seq<Row>)
    requires rows != []
    ensures TerminalCount(rows)
            == TerminalCount(rows[..|rows| - 1]) + One(rows[|rows| - 1].decision.Terminal())
  {
  }

  lemma DropCountGrows(rows: seq<Row>)
    requires rows != []
    ensures DropCount(rows) == DropCount(rows[..|rows| - 1]) + One(rows[|rows| - 1].decision.CallerDrop())
  {
  }

  function One(b: bool): nat {
    if b then 1 else 0
  }

  lemma CountGrows(rows: seq<Row>, d: Decision)
    requires rows != []
    ensures CountOf(rows, d) == CountOf(rows[..|rows| - 1], d) + One(rows[|rows| - 1].decision == d)
  {
  }

  lemma OneDecision(d: Decision)
    ensures One(d == Pending) + One(d == Admitted) + One(d.Terminal()) + One(d.CallerDrop()) == 1
  {
  }

  lemma PartitionGrows(rows: seq<Row>)
    requires rows != []
    requires var before := rows[..|rows| - 1];
      CountOf(before, Pending) + CountOf(before, Admitted) + TerminalCount(before) + DropCount(before) == |before|
    ensures CountOf(rows, Pending) + CountOf(rows, Admitted) + TerminalCount(rows) + DropCount(rows) == |rows|
  {
    CountGrows(rows, Pending);
    CountGrows(rows, Admitted);
    TerminalCountGrows(rows);
    DropCountGrows(rows);
    OneDecision(rows[|rows| - 1].decision);
  }

  /** Each row is counted under exactly one decision. */
  lemma {:induction false} CountsPartitionRows(rows: seq<Row>)
    ensures CountOf(rows, Pending) + CountOf(rows, Admitted) + TerminalCount(rows) + DropCount(rows) == |rows|
  {
    if rows == [] {
    } else {
      CountsPartitionRows(rows[..|rows| - 1]);
      PartitionGrows(rows);
    }
  }

  lemma {:induction false} NoneCounted(rows: seq<Row>, d: Decision)
    ensures CountOf(rows, d) == 0 <==> forall i :: 0 <= i < |rows| ==> rows[i].decision != d
  {
    if rows == [] {
    } else {
      NoneCounted(rows[..|rows| - 1], d);
    }
  }

  function SampleIndices(rows: seq<Row>): set<int> {
    set i | 0 <= i < |rows| :: rows[i].sampleIndex
  }

  lemma SampleIndicesStep(rows: seq<Row>)
    requires rows != []
    ensures SampleIndices(rows) == SampleIndices(rows[..|rows| - 1]) + {rows[|rows| - 1].sampleIndex}
  {
    var n := |rows| - 1;
    forall x | x in SampleIndices(rows[..n]) ensures x in SampleIndices(rows) {
      var i :| 0 <= i < n && rows[..n][i].sampleIndex == x;
      assert rows[i].sampleIndex == x;
    }
    forall x | x in SampleIndices(rows) && x != rows[n].sampleIndex ensures x in SampleIndices(rows[..n]) {
      var i :| 0 <= i < |rows| && rows[i].sampleIndex == x;
      assert rows[..n][i].sampleIndex == x;
    }
  }

  lemma DistinctStep(rows: seq<Row>)
    requires rows != []
    ensures DistinctSamples(rows) <==>
      DistinctSamples(rows[..|rows| - 1]) && rows[|rows| - 1].sampleIndex !in SampleIndices(rows[..|rows| - 1])
  {
    var n := |rows| - 1;
    assert forall i :: 0 <= i < n ==> rows[..n][i] == rows[i];
    if rows[n].sampleIndex in SampleIndices(rows[..n]) {
      var i :| 0 <= i < n && rows[..n][i].sampleIndex == rows[n].sampleIndex;
      assert rows[i].sampleIndex == rows[n].sampleIndex;
    } else {
      forall i | 0 <= i < n ensures rows[i].sampleIndex != rows[n].sampleIndex {
        assert rows[..n][i].sampleIndex in SampleIndices(rows[..n]);
      }
    }
  }

  /** The length of the index set tells whether any index repeats. */
  lemma {:induction false} IndexSetSize(rows: seq<Row>)
    ensures |SampleIndices(rows)| <= |rows|
    ensures |SampleIndices(rows)| == |rows| <==> DistinctSamples(rows)
  {
    if rows == [] {
    } else {
      IndexSetSize(rows[..|rows| - 1]);
      SampleIndicesStep(rows);
      DistinctStep(rows);
    }
  }

  datatype Summary = Summary(planned: nat, released: nat, notReleased: nat,
                             accepted: nat, terminal: nat, callerDropped: nat)

  datatype AccountingError = NotUniquelySettled | CountsDiffer

  /** The final check: it passes exactly on balanced rows, and then nothing planned is unaccounted for. */
  method Accounting(rows: seq<Row>, planned: nat) returns (r: Result<Summary, AccountingError>)
    ensures r.Ok? <==> Balanced(rows, planned)
    ensures r.Ok? ==>
      && r.value.planned == planned && r.value.released == |rows|
      && r.value.accepted == r.value.terminal == AcceptedCount(rows)
      && r.value.callerDropped == DropCount(rows)
      && r.value.accepted + r.value.callerDropped + r.value.notReleased == planned
    ensures r.Err? ==> (r.error.NotUniquelySettled? <==> !AllSettled(rows) || !DistinctSamples(rows))
  {
    var counts := Tally(rows);
    CountsPartitionRows(rows);
    SettledMeansNonePending(rows);
    IndexSetSize(rows);
    if Get(counts, Pending) != 0 || Get(counts, Admitted) != 0 || |SampleIndices(rows)| != |rows| {
      return Err(NotUniquelySettled);
    }
    var accepted := CountAccepted(rows);
    var terminal := Get(counts, Completed) + Get(counts, Cancelled) + Get(counts, Failed) + Get(counts, Superseded);
    var dropped := Get(counts, StaleDrop) + Get(counts, FutureDrop) + Get(counts, BacklogDrop)
                   + Get(counts, CoalescedDrop) + Get(counts, CancelDrop);
    if accepted != terminal || accepted + dropped != |rows| || |rows| > planned {
      return Err(CountsDiffer);
    }
    return Ok(Summary(planned, |rows|, planned - |rows|, accepted, terminal, dropped));
  }

  function Get(counts: map<Decision, nat>, d: Decision): nat {
    if d in counts then counts[d] else 0
  }

  method Tally(rows: seq<Row>) returns (counts: map<Decision, nat>)
    ensures forall d :: Get(counts, d) == CountOf(rows, d)
  {
    counts := map[];
    for i := 0 to |rows|
      invariant forall d :: Get(counts, d) == CountOf(rows[..i], d)
    {
      assert rows[..i + 1][..i] == rows[..i];
      var d := rows[i].decision;
      counts := counts[d := Get(counts, d) + 1];
    }
    assert rows[..|rows|] == rows;
  }

  method CountAccepted(rows: seq<Row>) returns (accepted: nat)
    ensures accepted == AcceptedCount(rows)
  {
    accepted := 0;
    for i := 0 to |rows|
      invariant accepted == AcceptedCount(rows[..i])
    {
      assert rows[..i + 1][..i] == rows[..i];
      accepted := accepted + if rows[i].admitted then 1 else 0;
    }
    assert rows[..|rows|] == rows;
  }

  lemma SettledMeansNonePending(rows: seq<Row>)
    ensures AllSettled(rows) <==> CountOf(rows, Pending) == 0 && CountOf(rows, Admitted) == 0
  {
    NoneCounted(rows, Pending);
    NoneCounted(rows, Admitted);
    forall i | 0 <= i < |rows|
      ensures rows[i].decision.Terminal() || rows[i].decision.CallerDrop()
              <==> rows[i].decision != Pending && rows[i].decision != Admitted
    {
      var d := rows[i].decision;
      assert d.Pending? || d.Admitted? || d.Terminal() || d.CallerDrop();
    }
  }

  // ---------------------------------------------------------------------------
  // The two threads
  // ---------------------------------------------------------------------------

  datatype Config = Config(limit: nat, maximumAge: int, latest: bool, sources: seq<int>)

  /** Where the consumer loop is.  `Releasing` is its `finally` block. */
  datatype Phase =
    | Top
    | StopTested
    | NothingPopped
    | Holding(item: Arrival)
    | Submitted(item: Arrival)
    | Releasing(item: Arrival, raised: bool)
    | Exited
    | Aborted(left: Option<Arrival>)

  /** `popped` is the history of every arrival the consumer took. */
  datatype State = State(q: Contents, done: bool, stop: bool, phase: Phase, popped: seq<Arrival>)

  const START := State(Contents([], 0, [], []), false, false, Top, [])

  /** One atomic step of either thread, or the outside world setting the stop event. */
  datatype Step =
    | Emit(nowNs: int)                        // producer releases the next observation
    | Close                                   // producer's finally block
    | SetStop                                 // caller, producer error or anything else
    | TestStop(nowNs: int)                    // loop head: cancel pending rows if stopped
    | Pop(nowNs: int)                         // second reading of the stop event, then pop
    | CheckDone                               // nothing popped: leave the loop or wait
    | SubmitUnfresh(nowNs: int)               // the item aged between pop and submit
    | Accept(nowNs: int)                      // the engine accepted the request
    | Settle(outcome: Decision, raised: bool) // the request became terminal
    | RaiseBeforeTry                          // no context for the item
    | RaiseInBody                             // submit, wait or copy raised
    | Finish(nowNs: int)                      // finally block completed
    | RaiseInRelease                          // finally block raised before finish
    | Cleanup(nowNs: int)                     // after the loop, however it ended: cancel what is pending

  function Decide(c: Contents, slot: nat, admitted: bool, d: Decision): Contents
    requires slot < |c.rows|
  {
    c.(rows := c.rows[slot := c.rows[slot].(admitted := admitted, decision := d)])
  }

  /** The state after one step, or nothing where the step is not possible. */
  function Apply(cfg: Config, s: State, step: Step): Option<State> {
    match step
    case Emit(now) =>
      var i := |s.q.rows|;
      if s.done || i >= |cfg.sources| then None
      else Some(s.(q := Emitted(s.q, cfg.limit, i, cfg.sources[i], now)))
    case Close =>
      if s.done || !(s.stop || |s.q.rows| == |cfg.sources|) then None else Some(s.(done := true))
    case SetStop => Some(s.(stop := true))
    case TestStop(now) =>
      if !s.phase.Top? then None
      else Some(s.(q := if s.stop then CancelledAll(s.q, now) else s.q, phase := StopTested))
    case Pop(now) =>
      if !s.phase.StopTested? then None
      else if s.stop then Some(s.(phase := NothingPopped))
      else
        var (q, item) := Popped(s.q, now, cfg.maximumAge, cfg.latest);
        if item.None? then Some(s.(q := q, phase := NothingPopped))
        else Some(s.(q := q, phase := Holding(item.value), popped := s.popped + [item.value]))
    case CheckDone =>
      if !s.phase.NothingPopped? then None
      else Some(s.(phase := if s.done && s.q.pending == [] then Exited else Top))
    case SubmitUnfresh(now) =>
      if !s.phase.Holding? || s.phase.item.slot >= |s.q.rows| then None
      else
        var reason := FreshnessDecision(s.phase.item.sourceNs, now, cfg.maximumAge);
        if reason.None? then None
        else Some(s.(q := Decide(s.q, s.phase.item.slot, s.q.rows[s.phase.item.slot].admitted, reason.value),
                     phase := Releasing(s.phase.item, false)))
    case Accept(now) =>
      if !s.phase.Holding? || s.phase.item.slot >= |s.q.rows|
        || FreshnessDecision(s.phase.item.sourceNs, now, cfg.maximumAge).Some? then None
      else Some(s.(q := Decide(s.q, s.phase.item.slot, true, Admitted), phase := Submitted(s.phase.item)))
    case Settle(outcome, raised) =>
      if !s.phase.Submitted? || s.phase.item.slot >= |s.q.rows| || !outcome.Terminal()
        || ((outcome.Failed? || outcome.Superseded?) && !raised) then None
      else Some(s.(q := Decide(s.q, s.phase.item.slot, s.q.rows[s.phase.item.slot].admitted, outcome),
                   stop := s.stop || !outcome.Completed?, phase := Releasing(s.phase.item, raised)))
    case RaiseBeforeTry =>
      if !s.phase.Holding? then None else Some(s.(stop := true, phase := Aborted(Some(s.phase.item))))
    case RaiseInBody =>
      if !s.phase.Holding? && !s.phase.Submitted? then None else Some(s.(phase := Releasing(s.phase.item, true)))
    case Finish(now) =>
      if !s.phase.Releasing? then None
      else if s.phase.raised then
        Some(s.(q := Finished(s.q, now), stop := true, phase := Aborted(Some(s.phase.item))))
      else Some(s.(q := Finished(s.q, now), phase := Top))
    case RaiseInRelease =>
      if !s.phase.Releasing? then None else Some(s.(stop := true, phase := Aborted(Some(s.phase.item))))
    case Cleanup(now) =>
      if !s.phase.Aborted? && !s.phase.Exited? then None else Some(s.(q := CancelledAll(s.q, now)))
  }

  /** Any interleaving: steps that are not possible are not part of a run. */
  function Run(cfg: Config, steps: seq<Step>): Option<State> {
    if steps == [] then Some(START)
    else
      var before := Run(cfg, steps[..|steps| - 1]);
      if before.None? then None else Apply(cfg, before.value, steps[|steps| - 1])
  }

  // ---------------------------------------------------------------------------
  // Where a released row is
  // ---------------------------------------------------------------------------

  function CurrentItem(p: Phase): Option<Arrival> {
    match p
    case Holding(item) => Some(item)
    case Submitted(item) => Some(item)
    case Releasing(item, _) => Some(item)
    case Aborted(left) => left
    case _ => None
  }

  predicate Unsettled(d: Decision) {
    d.Pending? || d.Admitted?
  }

  ghost predicate Queued(s: State, i: int) {
    exists k :: 0 <= k < |s.q.pending| && s.q.pending[k].slot == i
  }

  ghost predicate InProcess(s: State, i: int)
    requires 0 <= i < |s.q.rows|
  {
    CurrentItem(s.phase).Some? && CurrentItem(s.phase).value.slot == i && Unsettled(s.q.rows[i].decision)
  }

  ghost predicate Describes(cfg: Config, rows: seq<Row>, a: Arrival) {
    a.slot < |rows| && a.slot < |cfg.sources| && a.index == a.slot && a.sourceNs == cfg.sources[a.slot]
  }

  /** A row keeps its number and flag, and is queued or in process for as long as it is unsettled. */
  ghost predicate RowTracked(s: State, i: nat) {
    i < |s.q.rows| ==>
      && s.q.rows[i].sampleIndex == i
      && (s.q.rows[i].admitted <==> s.q.rows[i].decision.Admitted? || s.q.rows[i].decision.Terminal())
      && (Unsettled(s.q.rows[i].decision) ==> Queued(s, i) || InProcess(s, i))
  }

  ghost predicate PhaseAgrees(s: State) {
    match s.phase
    case Top => s.q.processing == 0
    case StopTested => s.q.processing == 0
    case NothingPopped => s.q.processing == 0
    case Exited => s.q.processing == 0 && s.done && s.q.pending == []
    case Holding(item) => s.q.processing == 1 && item.slot < |s.q.rows| && s.q.rows[item.slot].decision.Pending?
    case Submitted(item) => s.q.processing == 1 && item.slot < |s.q.rows| && s.q.rows[item.slot].decision.Admitted?
    case Releasing(item, raised) =>
      s.q.processing == 1 && item.slot < |s.q.rows| && (Unsettled(s.q.rows[item.slot].decision) ==> raised)
    case Aborted(_) => s.q.processing <= 1
  }

  ghost predicate QueueInv(cfg: Config, s: State) {
    && Bounded(s.q, cfg.limit)
    && |s.q.rows| <= |cfg.sources|
    && PhaseAgrees(s)
    && Ordered(s.popped + s.q.pending, |s.q.rows|)
  }

  ghost predicate ArrivalInv(cfg: Config, s: State) {
    && (CurrentItem(s.phase).Some? ==> s.popped != [] && CurrentItem(s.phase).value == s.popped[|s.popped| - 1])
    && (forall a :: a in s.q.pending ==> Describes(cfg, s.q.rows, a) && s.q.rows[a.slot].decision.Pending?)
    && (forall a :: a in s.popped ==> Describes(cfg, s.q.rows, a))
  }

  ghost predicate RowInv(s: State) {
    forall i: nat :: RowTracked(s, i)
  }

  ghost predicate Inv(cfg: Config, s: State) {
    QueueInv(cfg, s) && ArrivalInv(cfg, s) && RowInv(s)
  }

  // ---------------------------------------------------------------------------
  // Every step keeps the invariant
  // ---------------------------------------------------------------------------

  lemma StartIsSound(cfg: Config)
    ensures Inv(cfg, START)
  {
  }

  ghost predicate Precedes(popped: seq<Arrival>, pending: seq<Arrival>) {
    forall k, l :: 0 <= k < |popped| && 0 <= l < |pending| ==> popped[k].slot < pending[l].slot
  }

  /** The history followed by the queue is in emission order. */
  lemma OrderedParts(popped: seq<Arrival>, pending: seq<Arrival>, n: nat)
    ensures Ordered(popped + pending, n) <==> Ordered(popped, n) && Ordered(pending, n) && Precedes(popped, pending)
  {
    var all := popped + pending;
    if Ordered(all, n) {
      forall k | 0 <= k < |popped| ensures popped[k].slot < n {
        assert all[k] == popped[k];
      }
      forall k | 0 <= k < |pending| ensures pending[k].slot < n {
        assert all[|popped| + k] == pending[k];
      }
      forall k, l | 0 <= k < l < |popped| ensures popped[k].slot < popped[l].slot {
        assert all[k] == popped[k] && all[l] == popped[l];
      }
      forall k, l | 0 <= k < l < |pending| ensures pending[k].slot < pending[l].slot {
        assert all[|popped| + k] == pending[k] && all[|popped| + l] == pending[l];
      }
      forall k, l | 0 <= k < |popped| && 0 <= l < |pending| ensures popped[k].slot < pending[l].slot {
        assert all[k] == popped[k] && all[|popped| + l] == pending[l];
      }
    }
  }

  lemma EmitKeepsOrder(cfg: Config, s: State, now: int)
    requires QueueInv(cfg, s) && Apply(cfg, s, Emit(now)).Some?
    ensures var after := Apply(cfg, s, Emit(now)).value;
      Bounded(after.q, cfg.limit) && Ordered(after.popped + after.q.pending, |after.q.rows|)
  {
    var n := |s.q.rows|;
    EmitKeepsBound(s.q, cfg.limit, n, cfg.sources[n], now);
    OneMoreOrdered(s.popped, s.q.pending, n, Arrival(n, cfg.sources[n], n));
  }

  /** One more row, and possibly its arrival behind the others. */
  lemma OneMoreOrdered(popped: seq<Arrival>, pending: seq<Arrival>, n: nat, a: Arrival)
    requires Ordered(popped + pending, n) && a.slot == n
    ensures Ordered(popped + pending, n + 1) && Ordered(popped + (pending + [a]), n + 1)
  {
    assert popped + (pending + [a]) == popped + pending + [a];
  }

  lemma EmitKeepsTracking(cfg: Config, s: State, now: int, i: nat)
    requires Apply(cfg, s, Emit(now)).Some? && RowTracked(s, i)
    ensures RowTracked(Apply(cfg, s, Emit(now)).value, i)
  {
    var after, n := Apply(cfg, s, Emit(now)).value, |s.q.rows|;
    if i < n {
      if Queued(s, i) {
        var k :| 0 <= k < |s.q.pending| && s.q.pending[k].slot == i;
        assert after.q.pending[k].slot == i;
      }
    } else if i == n && |s.q.pending| + s.q.processing < cfg.limit {
      assert after.q.pending[|s.q.pending|].slot == i;
    }
  }

  lemma EmitKeeps(cfg: Config, s: State, now: int)
    requires Inv(cfg, s) && Apply(cfg, s, Emit(now)).Some?
    ensures Inv(cfg, Apply(cfg, s, Emit(now)).value)
  {
    EmitKeepsOrder(cfg, s, now);
    var after := Apply(cfg, s, Emit(now)).value;
    var n := |s.q.rows|;
    assert after.q.rows[..n] == s.q.rows;
    assert forall i :: 0 <= i < n ==> after.q.rows[i] == s.q.rows[i];
    forall i: nat ensures RowTracked(after, i) {
      assert RowTracked(s, i);
      EmitKeepsTracking(cfg, s, now, i);
    }
    forall a | a in after.q.pending
      ensures Describes(cfg, after.q.rows, a) && after.q.rows[a.slot].decision.Pending?
    {
      if a in s.q.pending {
        assert after.q.rows[a.slot] == s.q.rows[a.slot];
      }
    }
  }

  /** The item in process lies before every queued one. */
  lemma ItemPrecedesPending(cfg: Config, s: State)
    requires Inv(cfg, s) && CurrentItem(s.phase).Some?
    ensures var slot := CurrentItem(s.phase).value.slot;
      slot < |s.q.rows| && forall k :: 0 <= k < |s.q.pending| ==> slot < s.q.pending[k].slot
  {
    OrderedParts(s.popped, s.q.pending, |s.q.rows|);
  }

  /** What cancelling does to row i: `k` is the queued arrival that owns it, if any. */
  lemma CancelRow(c: Contents, limit: nat, now: int, i: nat) returns (k: int)
    requires Bounded(c, limit) && i < |c.rows|
    ensures -1 <= k < |c.pending|
    ensures k >= 0 ==> c.pending[k].slot == i && CancelledAll(c, now).rows[i] == c.rows[i].(decision := CancelDrop)
    ensures k < 0 ==> forall j :: 0 <= j < |c.pending| ==> c.pending[j].slot != i
    ensures k < 0 ==> CancelledAll(c, now).rows[i] == c.rows[i]
  {
    CancelMeaning(c, limit, now);
    if j :| 0 <= j < |c.pending| && c.pending[j].slot == i {
      k := j;
    } else {
      k := -1;
    }
  }

  lemma CancelKeeps(cfg: Config, s: State, now: int, phase: Phase)
    requires Inv(cfg, s)
    requires phase == s.phase || (s.phase.Top? && phase.StopTested?)
    ensures Inv(cfg, s.(q := CancelledAll(s.q, now), phase := phase))
  {
    var after := s.(q := CancelledAll(s.q, now), phase := phase);
    CancelKeepsQueue(cfg, s, now, phase);
    forall i: nat ensures RowTracked(after, i) {
      CancelKeepsTracking(cfg, s, now, phase, i);
    }
  }

  lemma CancelKeepsTracking(cfg: Config, s: State, now: int, phase: Phase, i: nat)
    requires Bounded(s.q, cfg.limit) && ArrivalInv(cfg, s) && RowTracked(s, i)
    requires phase == s.phase || (s.phase.Top? && phase.StopTested?)
    ensures RowTracked(s.(q := CancelledAll(s.q, now), phase := phase), i)
  {
    if i < |s.q.rows| {
      var k := CancelRow(s.q, cfg.limit, now, i);
      assert k >= 0 ==> s.q.pending[k] in s.q.pending;
    }
  }

  lemma CancelKeepsQueue(cfg: Config, s: State, now: int, phase: Phase)
    requires Inv(cfg, s)
    requires phase == s.phase || (s.phase.Top? && phase.StopTested?)
    ensures QueueInv(cfg, s.(q := CancelledAll(s.q, now), phase := phase))
    ensures ArrivalInv(cfg, s.(q := CancelledAll(s.q, now), phase := phase))
  {
    assert Bounded(CancelledAll(s.q, now), cfg.limit) by {
      CancelMeaning(s.q, cfg.limit, now);
    }
    assert Ordered(s.popped + [], |s.q.rows|) by {
      OrderedParts(s.popped, s.q.pending, |s.q.rows|);
      OrderedParts(s.popped, [], |s.q.rows|);
    }
    if CurrentItem(s.phase).Some? {
      ItemPrecedesPending(cfg, s);
      var k := CancelRow(s.q, cfg.limit, now, CurrentItem(s.phase).value.slot);
    }
  }

  /** The fate of one taken arrival when `item` was selected. */
  ghost function FateIn(row: Row, a: Arrival, now: int, maximumAge: int, item: Option<Arrival>): Row {
    Fate(row, a, now, maximumAge, if item.Some? then {item.value} else {})
  }

  /** What popping does to row i: `k` is the taken arrival that owns it, if any. */
  lemma PopRow(c: Contents, limit: nat, now: int, maximumAge: int, latest: bool, i: nat) returns (k: int)
    requires Bounded(c, limit) && i < |c.rows|
    ensures var (q, item) := Popped(c, now, maximumAge, latest);
      var n := TakenCount(c.pending, now, maximumAge, latest);
      && |q.rows| == |c.rows|
      && -1 <= k < n
      && (k >= 0 ==> c.pending[k].slot == i && q.rows[i] == FateIn(c.rows[i], c.pending[k], now, maximumAge, item))
      && (k < 0 ==> (forall j :: 0 <= j < n ==> c.pending[j].slot != i) && q.rows[i] == c.rows[i])
  {
    PopMeaning(c, limit, now, maximumAge, latest);
    var n := TakenCount(c.pending, now, maximumAge, latest);
    var taken := c.pending[..n];
    assert forall j :: 0 <= j < n ==> taken[j] == c.pending[j];
    if j :| 0 <= j < n && c.pending[j].slot == i {
      assert taken[j].slot == i;
      k := j;
    } else {
      k := -1;
    }
  }

  /** A popped arrival was queued and fresh; what it leaves behind was queued too. */
  lemma PopItem(c: Contents, limit: nat, now: int, maximumAge: int, latest: bool)
    requires Bounded(c, limit)
    ensures var (q, item) := Popped(c, now, maximumAge, latest);
      var n := TakenCount(c.pending, now, maximumAge, latest);
      && Bounded(q, limit)
      && q.pending == c.pending[n..]
      && q.processing == (if item.Some? then 1 else c.processing)
      && (item.Some? ==> item.value in c.pending[..n] && IsFresh(item.value, now, maximumAge))
  {
    PopMeaning(c, limit, now, maximumAge, latest);
    LatestFreshIsNewestFresh(c.pending[..TakenCount(c.pending, now, maximumAge, latest)], now, maximumAge);
  }

  /** The consumer's state around one pop. */
  ghost predicate PopState(s: State, after: State, n: nat, item: Option<Arrival>) {
    && s.phase.StopTested? && n <= |s.q.pending|
    && after.phase == (if item.Some? then Holding(item.value) else NothingPopped)
    && after.popped == (if item.Some? then s.popped + [item.value] else s.popped)
    && after.q.pending == s.q.pending[n..]
    && |after.q.rows| == |s.q.rows|
    && after.q.processing == (if item.Some? then 1 else s.q.processing)
    && (item.Some? ==> item.value in s.q.pending[..n])
  }

  /** The first `n` arrivals are taken from the queue, and `item` is the one of them that is popped. */
  ghost predicate PopsTo(cfg: Config, s: State, now: int, after: State, n: nat, item: Option<Arrival>) {
    && Bounded(s.q, cfg.limit) && Bounded(after.q, cfg.limit) && PopState(s, after, n, item)
    && n == TakenCount(s.q.pending, now, cfg.maximumAge, cfg.latest)
    && (after.q, item) == Popped(s.q, now, cfg.maximumAge, cfg.latest)
  }

  lemma PopGivesState(cfg: Config, s: State, now: int)
    requires Inv(cfg, s) && s.phase.StopTested? && !s.stop
    ensures var n := TakenCount(s.q.pending, now, cfg.maximumAge, cfg.latest);
      PopState(s, Apply(cfg, s, Pop(now)).value, n, Popped(s.q, now, cfg.maximumAge, cfg.latest).1)
    ensures Bounded(Apply(cfg, s, Pop(now)).value.q, cfg.limit)
  {
    PopItem(s.q, cfg.limit, now, cfg.maximumAge, cfg.latest);
    PopMeaning(s.q, cfg.limit, now, cfg.maximumAge, cfg.latest);
  }

  lemma PopApplies(cfg: Config, s: State, now: int)
    requires Inv(cfg, s) && s.phase.StopTested? && !s.stop
    ensures Apply(cfg, s, Pop(now)).value.q == Popped(s.q, now, cfg.maximumAge, cfg.latest).0
  {
  }

  lemma PopIsPopState(cfg: Config, s: State, now: int) returns (n: nat, item: Option<Arrival>)
    requires Inv(cfg, s) && s.phase.StopTested? && !s.stop
    ensures PopsTo(cfg, s, now, Apply(cfg, s, Pop(now)).value, n, item)
  {
    n := TakenCount(s.q.pending, now, cfg.maximumAge, cfg.latest);
    item := Popped(s.q, now, cfg.maximumAge, cfg.latest).1;
    PopApplies(cfg, s, now);
    PopGivesState(cfg, s, now);
  }

  lemma TrackedAcrossPop(s: State, after: State, n: nat, item: Option<Arrival>, i: nat, k: int, now: int,
          maximumAge: int)
    requires PopState(s, after, n, item) && i < |s.q.rows| && RowTracked(s, i)
    requires k < n
    requires k >= 0 ==> s.q.pending[k].slot == i && s.q.rows[i].decision.Pending?
    requires k >= 0 ==> after.q.rows[i] == FateIn(s.q.rows[i], s.q.pending[k], now, maximumAge, item)
    requires k < 0 ==> (forall j :: 0 <= j < n ==> s.q.pending[j].slot != i) && after.q.rows[i] == s.q.rows[i]
    ensures RowTracked(after, i)
  {
    if k < 0 {
      StaysQueued(s, after, n, item, i);
    }
  }

  lemma StaysQueued(s: State, after: State, n: nat, item: Option<Arrival>, i: nat)
    requires PopState(s, after, n, item) && i < |s.q.rows|
    requires forall j :: 0 <= j < n ==> s.q.pending[j].slot != i
    ensures Queued(s, i) ==> Queued(after, i)
    ensures !InProcess(s, i)
  {
    if Queued(s, i) {
      var l :| 0 <= l < |s.q.pending| && s.q.pending[l].slot == i;
      assert after.q.pending[l - n].slot == i;
    }
  }

  /** Queued arrivals that stay, and the one popped, keep their rows as they were. */
  lemma PopKeepsRowOf(c: Contents, limit: nat, now: int, maximumAge: int, latest: bool, l: nat)
    requires Bounded(c, limit) && l < |c.pending|
    requires l >= TakenCount(c.pending, now, maximumAge, latest)
             || Popped(c, now, maximumAge, latest).1 == Some(c.pending[l])
    ensures var rows, slot := Popped(c, now, maximumAge, latest).0.rows, c.pending[l].slot;
      slot < |rows| && |rows| == |c.rows| && rows[slot] == c.rows[slot]
  {
    PopItem(c, limit, now, maximumAge, latest);
    var k := PopRow(c, limit, now, maximumAge, latest, c.pending[l].slot);
    if k >= 0 {
      assert k == l;
    }
  }

  lemma PopKeepsTracking(cfg: Config, s: State, now: int, i: nat, after: State, n: nat, item: Option<Arrival>)
    requires ArrivalInv(cfg, s) && RowTracked(s, i) && i < |s.q.rows| && PopsTo(cfg, s, now, after, n, item)
    ensures RowTracked(after, i)
  {
    var k := PopRow(s.q, cfg.limit, now, cfg.maximumAge, cfg.latest, i);
    if k >= 0 {
      assert s.q.pending[k] in s.q.pending;
    }
    TrackedAcrossPop(s, after, n, item, i, k, now, cfg.maximumAge);
  }

  ghost predicate SameRow(s: State, after: State, i: nat) {
    i < |s.q.rows| && i < |after.q.rows| && after.q.rows[i] == s.q.rows[i]
  }

  lemma PopKeepsRows(cfg: Config, s: State, now: int, after: State, n: nat, item: Option<Arrival>)
    requires ArrivalInv(cfg, s) && RowInv(s) && PopsTo(cfg, s, now, after, n, item)
    ensures RowInv(after)
  {
    forall i: nat ensures RowTracked(after, i) {
      assert RowTracked(s, i);
      if i < |s.q.rows| {
        PopKeepsTracking(cfg, s, now, i, after, n, item);
      }
    }
  }

  /** A queued arrival that stays, or is the one popped, keeps its row. */
  ghost predicate KeepsRow(s: State, after: State, n: nat, item: Option<Arrival>, l: nat) {
    l < |s.q.pending| && (l >= n || item == Some(s.q.pending[l])) ==> SameRow(s, after, s.q.pending[l].slot)
  }

  ghost predicate KeepsRows(s: State, after: State, n: nat, item: Option<Arrival>) {
    forall l: nat :: KeepsRow(s, after, n, item, l)
  }

  lemma PopKeepsOneRow(cfg: Config, s: State, now: int, after: State, n: nat, item: Option<Arrival>, l: nat)
    requires PopsTo(cfg, s, now, after, n, item)
    ensures KeepsRow(s, after, n, item, l)
  {
    if l < |s.q.pending| && (l >= n || item == Some(s.q.pending[l])) {
      PopKeepsRowOf(s.q, cfg.limit, now, cfg.maximumAge, cfg.latest, l);
    }
  }

  lemma PopKeepsSameRows(cfg: Config, s: State, now: int, after: State, n: nat, item: Option<Arrival>)
    requires PopsTo(cfg, s, now, after, n, item)
    ensures KeepsRows(s, after, n, item)
  {
    forall l: nat ensures KeepsRow(s, after, n, item, l) {
      PopKeepsOneRow(cfg, s, now, after, n, item, l);
    }
  }

  lemma PopKeeps(cfg: Config, s: State, now: int)
    requires Inv(cfg, s) && s.phase.StopTested? && !s.stop
    ensures Inv(cfg, Apply(cfg, s, Pop(now)).value)
  {
    var after := Apply(cfg, s, Pop(now)).value;
    var n, item := PopIsPopState(cfg, s, now);
    PopKeepsRows(cfg, s, now, after, n, item);
    PopKeepsSameRows(cfg, s, now, after, n, item);
    PopStateOrder(cfg, s, after, n, item);
    PopStateArrivals(cfg, s, after, n, item);
  }

  lemma PopStateOrder(cfg: Config, s: State, after: State, n: nat, item: Option<Arrival>)
    requires QueueInv(cfg, s) && PopState(s, after, n, item)
    ensures Ordered(after.popped + after.q.pending, |after.q.rows|)
  {
    assert s.q.pending == s.q.pending[..n] + after.q.pending;
    PopKeepsOrder(s.popped, s.q.pending[..n], after.q.pending, item, |s.q.rows|);
  }

  lemma PopStateArrivals(cfg: Config, s: State, after: State, n: nat, item: Option<Arrival>)
    requires QueueInv(cfg, s) && ArrivalInv(cfg, s) && PopState(s, after, n, item)
    requires KeepsRows(s, after, n, item)
    ensures ArrivalInv(cfg, after) && PhaseAgrees(after)
  {
    forall a | a in after.q.pending ensures Describes(cfg, after.q.rows, a) && after.q.rows[a.slot].decision.Pending? {
      var l :| n <= l < |s.q.pending| && s.q.pending[l] == a;
      KeptRowDescribes(cfg, s, after, n, item, l);
    }
    if item.Some? {
      var l :| 0 <= l < n && s.q.pending[l] == item.value;
      KeptRowDescribes(cfg, s, after, n, item, l);
    }
    forall a | a in s.popped ensures Describes(cfg, after.q.rows, a) {
      assert Describes(cfg, s.q.rows, a);
    }
  }

  lemma KeptRowDescribes(cfg: Config, s: State, after: State, n: nat, item: Option<Arrival>, l: nat)
    requires ArrivalInv(cfg, s) && KeepsRow(s, after, n, item, l)
    requires l < |s.q.pending| && (l >= n || item == Some(s.q.pending[l]))
    ensures Describes(cfg, after.q.rows, s.q.pending[l]) && after.q.rows[s.q.pending[l].slot].decision.Pending?
  {
    assert s.q.pending[l] in s.q.pending;
  }

  lemma PrecedesParts(popped: seq<Arrival>, taken: seq<Arrival>, rest: seq<Arrival>)
    requires Precedes(popped, taken + rest)
    ensures Precedes(popped, taken) && Precedes(popped, rest)
  {
    forall k, l | 0 <= k < |popped| && 0 <= l < |taken| ensures popped[k].slot < taken[l].slot {
      assert (taken + rest)[l] == taken[l];
    }
    forall k, l | 0 <= k < |popped| && 0 <= l < |rest| ensures popped[k].slot < rest[l].slot {
      assert (taken + rest)[|taken| + l] == rest[l];
    }
  }

  /** One of the arrivals between two others is between them. */
  lemma OneBetween(popped: seq<Arrival>, taken: seq<Arrival>, rest: seq<Arrival>, a: Arrival, n: nat)
    requires Precedes(popped, taken) && Precedes(taken, rest) && Precedes(popped, rest) && Ordered(taken, n)
    requires a in taken
    ensures Ordered([a], n) && Precedes(popped, [a]) && Precedes(popped + [a], rest)
  {
    var k :| 0 <= k < |taken| && taken[k] == a;
    forall l | 0 <= l < |rest| ensures a.slot < rest[l].slot {
      assert taken[k].slot < rest[l].slot;
    }
  }

  /** Taking a prefix of the queue and remembering one of its elements keeps emission order. */
  lemma PopKeepsOrder(popped: seq<Arrival>, taken: seq<Arrival>, rest: seq<Arrival>, item: Option<Arrival>, n: nat)
    requires Ordered(popped + (taken + rest), n)
    requires item.Some? ==> item.value in taken
    ensures Ordered((if item.Some? then popped + [item.value] else popped) + rest, n)
  {
    OrderedParts(popped, taken + rest, n);
    OrderedParts(taken, rest, n);
    PrecedesParts(popped, taken, rest);
    if item.Some? {
      OneBetween(popped, taken, rest, item.value, n);
      OrderedParts(popped, [item.value], n);
      OrderedParts(popped + [item.value], rest, n);
    } else {
      OrderedParts(popped, rest, n);
    }
  }

  /** Writing a decision into the row of the item in process. */
  lemma DecideKeeps(cfg: Config, s: State, item: Arrival, admitted: bool, d: Decision, phase: Phase, stop: bool)
    requires Inv(cfg, s) && CurrentItem(s.phase) == Some(item) && CurrentItem(phase) == Some(item)
    requires item.slot < |s.q.rows|
    requires admitted <==> d.Admitted? || d.Terminal()
    requires var after := s.(q := Decide(s.q, item.slot, admitted, d), phase := phase, stop := stop); PhaseAgrees(after)
    ensures Inv(cfg, s.(q := Decide(s.q, item.slot, admitted, d), phase := phase, stop := stop))
  {
    ItemPrecedesPending(cfg, s);
    var after := s.(q := Decide(s.q, item.slot, admitted, d), phase := phase, stop := stop);
    forall i: nat ensures RowTracked(after, i) {
      assert RowTracked(s, i);
      if i != item.slot && Queued(s, i) {
        var k :| 0 <= k < |s.q.pending| && s.q.pending[k].slot == i;
        assert after.q.pending[k].slot == i;
      }
    }
    forall a | a in s.q.pending
      ensures Describes(cfg, after.q.rows, a) && after.q.rows[a.slot].decision.Pending?
    {
      var k :| 0 <= k < |s.q.pending| && s.q.pending[k] == a;
    }
  }

  /** Steps that touch neither rows nor queue. */
  lemma MoveKeeps(cfg: Config, s: State, after: State)
    requires Inv(cfg, s)
    requires after.q.pending == s.q.pending && after.q.rows == s.q.rows && after.popped == s.popped
    requires PhaseAgrees(after) && Bounded(after.q, cfg.limit)
    requires CurrentItem(after.phase) == CurrentItem(s.phase)
      || (CurrentItem(after.phase).None? && (CurrentItem(s.phase).Some? ==>
            var slot := CurrentItem(s.phase).value.slot; slot < |s.q.rows| && !Unsettled(s.q.rows[slot].decision)))
    ensures Inv(cfg, after)
  {
    forall i: nat ensures RowTracked(after, i) {
      assert RowTracked(s, i);
      if Queued(s, i) {
        var k :| 0 <= k < |s.q.pending| && s.q.pending[k].slot == i;
        assert after.q.pending[k].slot == i;
      }
    }
  }

  lemma FinishKeepsBound(c: Contents, limit: nat, now: int)
    requires Bounded(c, limit)
    ensures Bounded(Finished(c, now), limit)
  {
    var after := Finished(c, now);
    assert forall b :: b in after.backlog ==> b in c.backlog || b == after.backlog[|c.backlog|];
  }

  /** `after` differs from `s` in the decision about the item in process, and in where the run is. */
  ghost predicate Decided(s: State, after: State, item: Arrival, admitted: bool, d: Decision) {
    && CurrentItem(s.phase) == Some(item) && CurrentItem(after.phase) == Some(item) && item.slot < |s.q.rows|
    && (admitted <==> d.Admitted? || d.Terminal())
    && after == s.(q := Decide(s.q, item.slot, admitted, d), phase := after.phase, stop := after.stop)
    && PhaseAgrees(after)
  }

  lemma DecisionOf(cfg: Config, s: State, step: Step) returns (item: Arrival, admitted: bool, d: Decision)
    requires Inv(cfg, s) && Apply(cfg, s, step).Some?
    requires step.SubmitUnfresh? || step.Accept? || step.Settle?
    ensures Decided(s, Apply(cfg, s, step).value, item, admitted, d)
  {
    item := s.phase.item;
    assert RowTracked(s, item.slot);
    d := match step
      case SubmitUnfresh(now) => FreshnessDecision(item.sourceNs, now, cfg.maximumAge).value
      case Accept(_) => Admitted
      case Settle(outcome, _) => outcome;
    admitted := step.Accept? || s.q.rows[item.slot].admitted;
  }

  /** The three steps that write the row of the item in process. */
  lemma DecisionStepKeeps(cfg: Config, s: State, step: Step)
    requires Inv(cfg, s) && Apply(cfg, s, step).Some?
    requires step.SubmitUnfresh? || step.Accept? || step.Settle?
    ensures Inv(cfg, Apply(cfg, s, step).value)
  {
    var item, admitted, d := DecisionOf(cfg, s, step);
    var after := Apply(cfg, s, step).value;
    DecideKeeps(cfg, s, item, admitted, d, after.phase, after.stop);
  }

  lemma FinishStepKeeps(cfg: Config, s: State, now: int)
    requires Inv(cfg, s) && s.phase.Releasing?
    ensures Inv(cfg, Apply(cfg, s, Finish(now)).value)
  {
    assert RowTracked(s, s.phase.item.slot);
    FinishKeepsBound(s.q, cfg.limit, now);
    MoveKeeps(cfg, s, Apply(cfg, s, Finish(now)).value);
  }

  lemma StepKeepsInvariant(cfg: Config, s: State, step: Step)
    requires Inv(cfg, s) && Apply(cfg, s, step).Some?
    ensures Inv(cfg, Apply(cfg, s, step).value)
  {
    match step
    case Emit(now) => EmitKeeps(cfg, s, now);
    case TestStop(now) =>
      if s.stop { CancelKeeps(cfg, s, now, StopTested); } else { MoveKeeps(cfg, s, Apply(cfg, s, step).value); }
    case Cleanup(now) => CancelKeeps(cfg, s, now, s.phase);
    case Pop(now) =>
      if s.stop { MoveKeeps(cfg, s, Apply(cfg, s, step).value); } else { PopKeeps(cfg, s, now); }
    case SubmitUnfresh(_) => DecisionStepKeeps(cfg, s, step);
    case Accept(_) => DecisionStepKeeps(cfg, s, step);
    case Settle(_, _) => DecisionStepKeeps(cfg, s, step);
    case Finish(now) => FinishStepKeeps(cfg, s, now);
    case _ => PlainStepKeeps(cfg, s, step);
  }

  /** Steps that change only where the consumer is, or the two events. */
  lemma PlainStepKeeps(cfg: Config, s: State, step: Step)
    requires Inv(cfg, s) && Apply(cfg, s, step).Some?
    requires step.Close? || step.SetStop? || step.CheckDone? || step.RaiseBeforeTry? || step.RaiseInBody?
             || step.RaiseInRelease?
    ensures Inv(cfg, Apply(cfg, s, step).value)
  {
    MoveKeeps(cfg, s, Apply(cfg, s, step).value);
  }

  // ---------------------------------------------------------------------------
  // Over whole runs
  // ---------------------------------------------------------------------------

  /** Every state any interleaving reaches satisfies the invariant. */
  lemma {:induction false} RunsAreSound(cfg: Config, steps: seq<Step>)
    requires Run(cfg, steps).Some?
    ensures Inv(cfg, Run(cfg, steps).value)
  {
    if steps == [] {
      StartIsSound(cfg);
    } else {
      var before := steps[..|steps| - 1];
      RunsAreSound(cfg, before);
      StepKeepsInvariant(cfg, Run(cfg, before).value, steps[|steps| - 1]);
    }
  }

  /** Queued plus processing never exceeds the limit, now or in any recorded backlog sample. */
  lemma BacklogNeverExceedsLimit(cfg: Config, steps: seq<Step>)
    requires Run(cfg, steps).Some?
    ensures var q := Run(cfg, steps).value.q;
      && |q.pending| + q.processing <= cfg.limit
      && forall b :: b in q.backlog ==> b.total == b.queued + b.processing <= cfg.limit
  {
    RunsAreSound(cfg, steps);
  }

  /** Every released observation is in exactly one place. */
  lemma EveryRowIsInOnePlace(cfg: Config, steps: seq<Step>, i: nat)
    requires Run(cfg, steps).Some? && i < |Run(cfg, steps).value.q.rows|
    ensures var s := Run(cfg, steps).value; var d := s.q.rows[i].decision;
      && (Queued(s, i) || InProcess(s, i) || d.CallerDrop() || d.Terminal())
      && !(Queued(s, i) && InProcess(s, i))
      && (Queued(s, i) || InProcess(s, i) ==> !d.CallerDrop() && !d.Terminal())
      && !(d.CallerDrop() && d.Terminal())
      && s.q.rows[i].sampleIndex == i
  {
    RunsAreSound(cfg, steps);
    var s := Run(cfg, steps).value;
    assert RowTracked(s, i);
    if Queued(s, i) {
      var k :| 0 <= k < |s.q.pending| && s.q.pending[k].slot == i;
      assert s.q.pending[k] in s.q.pending;
      if CurrentItem(s.phase).Some? {
        ItemPrecedesPending(cfg, s);
      }
    }
    assert !Unsettled(s.q.rows[i].decision) ==> s.q.rows[i].decision.CallerDrop() || s.q.rows[i].decision.Terminal();
  }

  /** What the consumer takes, in either mode, is a subsequence of what the producer emitted. */
  lemma PoppedInEmissionOrder(cfg: Config, steps: seq<Step>)
    requires Run(cfg, steps).Some?
    ensures var s := Run(cfg, steps).value;
      && (forall k, l :: 0 <= k < l < |s.popped| ==> s.popped[k].slot < s.popped[l].slot)
      && forall k :: 0 <= k < |s.popped| ==>
           s.popped[k].slot < |s.q.rows| && s.q.rows[s.popped[k].slot].sampleIndex == s.popped[k].index
  {
    RunsAreSound(cfg, steps);
    var s := Run(cfg, steps).value;
    OrderedParts(s.popped, s.q.pending, |s.q.rows|);
    forall k | 0 <= k < |s.popped|
      ensures s.popped[k].slot < |s.q.rows| && s.q.rows[s.popped[k].slot].sampleIndex == s.popped[k].index
    {
      assert s.popped[k] in s.popped;
      assert RowTracked(s, s.popped[k].slot);
    }
  }

  lemma {:induction false} FlagsAgreeWithCounts(rows: seq<Row>)
    requires forall i :: 0 <= i < |rows| ==> (rows[i].admitted <==> rows[i].decision.Terminal())
    ensures AcceptedCount(rows) == TerminalCount(rows)
  {
    if rows == [] {
    } else {
      FlagsAgreeWithCounts(rows[..|rows| - 1]);
    }
  }

  /** When the loop ends normally nothing is pending and the accounting cannot raise. */
  lemma NormalExitBalances(cfg: Config, steps: seq<Step>)
    requires Run(cfg, steps).Some? && Run(cfg, steps).value.phase.Exited?
    ensures var s := Run(cfg, steps).value;
      s.done && s.q.pending == [] && s.q.processing == 0 && Balanced(s.q.rows, |cfg.sources|)
  {
    RunsAreSound(cfg, steps);
    var s := Run(cfg, steps).value;
    forall i | 0 <= i < |s.q.rows|
      ensures s.q.rows[i].decision.Terminal() || s.q.rows[i].decision.CallerDrop()
      ensures s.q.rows[i].admitted <==> s.q.rows[i].decision.Terminal()
    {
      EveryRowIsInOnePlace(cfg, steps, i);
      assert RowTracked(s, i);
    }
    assert DistinctSamples(s.q.rows) by {
      assert forall i: nat :: i < |s.q.rows| ==> RowTracked(s, i) && s.q.rows[i].sampleIndex == i;
    }
    FlagsAgreeWithCounts(s.q.rows);
  }

  /** The main thread after the loop: accounting over the rows of any run that left it normally. */
  method AccountAfterExit(ghost cfg: Config, ghost steps: seq<Step>, rows: seq<Row>, planned: nat)
    returns (summary: Summary)
    requires Run(cfg, steps).Some? && Run(cfg, steps).value.phase.Exited?
    requires rows == Run(cfg, steps).value.q.rows && planned == |cfg.sources|
    ensures summary.released == |rows|
    ensures summary.accepted + summary.callerDropped + summary.notReleased == planned
  {
    NormalExitBalances(cfg, steps);
    var r := Accounting(rows, planned);
    summary := r.value;
  }

  /** A settled row belongs to no queued arrival. */
  lemma SettledIsNotQueued(cfg: Config, s: State, i: nat)
    requires Inv(cfg, s) && i < |s.q.rows| && !Unsettled(s.q.rows[i].decision)
    ensures forall k :: 0 <= k < |s.q.pending| ==> s.q.pending[k].slot != i
  {
    forall k | 0 <= k < |s.q.pending| ensures s.q.pending[k].slot != i {
      assert s.q.pending[k] in s.q.pending;
    }
  }

  /** A settled row is never rewritten, and released rows are never lost. */
  lemma SettledRowsAreFinal(cfg: Config, s: State, step: Step, i: nat)
    requires Inv(cfg, s) && Apply(cfg, s, step).Some?
    requires i < |s.q.rows| && !Unsettled(s.q.rows[i].decision)
    ensures i < |Apply(cfg, s, step).value.q.rows|
    ensures Apply(cfg, s, step).value.q.rows[i] == s.q.rows[i]
  {
    if step.Pop? || step.TestStop? || step.Cleanup? {
      QueueStepLeavesSettled(cfg, s, step, i);
    } else {
      PlainStepLeavesSettled(cfg, s, step, i);
    }
  }

  lemma QueueStepLeavesSettled(cfg: Config, s: State, step: Step, i: nat)
    requires Inv(cfg, s) && Apply(cfg, s, step).Some? && (step.Pop? || step.TestStop? || step.Cleanup?)
    requires i < |s.q.rows| && !Unsettled(s.q.rows[i].decision)
    ensures SameRow(s, Apply(cfg, s, step).value, i)
  {
    SettledIsNotQueued(cfg, s, i);
    match step
    case Pop(now) => PopStepLeavesOthers(cfg, s, now, i);
    case TestStop(now) => CancelLeavesOthers(cfg, s, now, i);
    case Cleanup(now) => CancelLeavesOthers(cfg, s, now, i);
  }

  lemma PopStepLeavesOthers(cfg: Config, s: State, now: int, i: nat)
    requires Inv(cfg, s) && i < |s.q.rows| && Apply(cfg, s, Pop(now)).Some?
    requires forall k :: 0 <= k < |s.q.pending| ==> s.q.pending[k].slot != i
    ensures SameRow(s, Apply(cfg, s, Pop(now)).value, i)
  {
    if !s.stop {
      PopApplies(cfg, s, now);
      PopLeavesOthers(cfg, s, now, i);
    }
  }

  lemma PlainStepLeavesSettled(cfg: Config, s: State, step: Step, i: nat)
    requires Inv(cfg, s) && Apply(cfg, s, step).Some? && !step.Pop? && !step.TestStop? && !step.Cleanup?
    requires i < |s.q.rows| && !Unsettled(s.q.rows[i].decision)
    ensures SameRow(s, Apply(cfg, s, step).value, i)
  {
  }

  lemma CancelLeavesOthers(cfg: Config, s: State, now: int, i: nat)
    requires Bounded(s.q, cfg.limit) && i < |s.q.rows|
    requires forall k :: 0 <= k < |s.q.pending| ==> s.q.pending[k].slot != i
    ensures i < |CancelledAll(s.q, now).rows| && CancelledAll(s.q, now).rows[i] == s.q.rows[i]
  {
    CancelMeaning(s.q, cfg.limit, now);
  }

  lemma PopLeavesOthers(cfg: Config, s: State, now: int, i: nat)
    requires Bounded(s.q, cfg.limit) && i < |s.q.rows|
    requires forall k :: 0 <= k < |s.q.pending| ==> s.q.pending[k].slot != i
    ensures var q := Popped(s.q, now, cfg.maximumAge, cfg.latest).0; i < |q.rows| && q.rows[i] == s.q.rows[i]
  {
    PopMeaning(s.q, cfg.limit, now, cfg.maximumAge, cfg.latest);
    var n := TakenCount(s.q.pending, now, cfg.maximumAge, cfg.latest);
    assert forall k :: 0 <= k < n ==> s.q.pending[..n][k] == s.q.pending[k];
  }
}
