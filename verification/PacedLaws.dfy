/**
 What holds of every paced run, in terms of its rows and samples.

 Whether an observation is dropped for the backlog can be read off the samples; a
 failure stops the run for good; and the accounting counts what the rows say.
 */
module PacedLaws {
  import opened Results
  import opened CallerQueues
  import opened PacedRun

  // ---------------------------------------------------------------------------
  // Drops and samples
  // ---------------------------------------------------------------------------

  /** How many observations were queued or in process before the sample `k` was taken. */
  ghost function TotalBefore(backlog: seq<Sample>, k: nat): nat
    requires k <= |backlog|
  {
    if k == 0 then 0 else backlog[k - 1].total
  }

  /** The sample `k` was taken when the row was released, and tells whether the row was dropped. */
  ghost predicate ReleasedAt(backlog: seq<Sample>, row: Row, k: nat, limit: nat) {
    && k < |backlog| && backlog[k].monotonicNs == row.enqueueNs
    && (row.decision == BacklogDrop <==> TotalBefore(backlog, k) >= limit)
    && backlog[k].total == TotalBefore(backlog, k) + if row.decision == BacklogDrop then 0 else 1
  }

  /** `at` gives for each row, in order, the sample of its release. */
  ghost predicate Releases(c: Contents, at: seq<nat>, limit: nat) {
    && |at| == |c.rows|
    && (forall i, j | 0 <= i < j < |at| :: at[i] < at[j])
    && (forall i | 0 <= i < |at| :: ReleasedAt(c.backlog, c.rows[i], at[i], limit))
    && |c.pending| + c.processing == TotalBefore(c.backlog, |c.backlog|)
  }

  /** `after` has the rows of `c`, dropped for the backlog or not as before, and more samples. */
  ghost predicate KeepsReleases(c: Contents, after: Contents) {
    && |after.rows| == |c.rows| && c.backlog <= after.backlog
    && (forall i | 0 <= i < |c.rows| :: after.rows[i].enqueueNs == c.rows[i].enqueueNs)
    && (forall i | 0 <= i < |c.rows| :: after.rows[i].decision == BacklogDrop <==> c.rows[i].decision == BacklogDrop)
    && |after.pending| + after.processing == TotalBefore(after.backlog, |after.backlog|)
  }

  lemma ReleaseStays(backlog: seq<Sample>, more: seq<Sample>, row: Row, after: Row, k: nat, limit: nat)
    requires ReleasedAt(backlog, row, k, limit) && backlog <= more
    requires after.enqueueNs == row.enqueueNs && (after.decision == BacklogDrop <==> row.decision == BacklogDrop)
    ensures ReleasedAt(more, after, k, limit)
  {
    assert more[k] == backlog[k] && (k > 0 ==> more[k - 1] == backlog[k - 1]);
  }

  lemma ReleasesStay(c: Contents, after: Contents, at: seq<nat>, limit: nat)
    requires Releases(c, at, limit) && KeepsReleases(c, after)
    ensures Releases(after, at, limit)
  {
    forall i | 0 <= i < |at| ensures ReleasedAt(after.backlog, after.rows[i], at[i], limit) {
      ReleaseStays(c.backlog, after.backlog, c.rows[i], after.rows[i], at[i], limit);
    }
  }

  lemma EmitReleases(c: Contents, after: Contents, at: seq<nat>, limit: nat, index: int, sourceNs: int, enqueueNs: int)
    requires Releases(c, at, limit) && Emits(c, after, limit, index, sourceNs, enqueueNs)
    ensures Releases(after, at + [|c.backlog|], limit)
  {
    var next := at + [|c.backlog|];
    forall i | 0 <= i < |at| ensures ReleasedAt(after.backlog, after.rows[i], next[i], limit) && next[i] < |c.backlog| {
      assert ReleasedAt(c.backlog, c.rows[i], at[i], limit);
      ReleaseStays(c.backlog, after.backlog, c.rows[i], after.rows[i], at[i], limit);
    }
    assert TotalBefore(after.backlog, |c.backlog|) == TotalBefore(c.backlog, |c.backlog|);
    assert ReleasedAt(after.backlog, after.rows[|at|], |c.backlog|, limit);
  }

  // ---------------------------------------------------------------------------
  // Every other step keeps the releases
  // ---------------------------------------------------------------------------

  /** The row stays, or it was pending and is dropped from the queue. */
  ghost predicate RowStaysOrDrops(row: Row, after: Row) {
    || after == row
    || (row.decision == Pending && after == row.(decision := after.decision)
        && after.decision in {FutureDrop, StaleDrop, CoalescedDrop, CancelDrop})
  }

  ghost predicate RowsStayOrDrop(rows: seq<Row>, after: seq<Row>) {
    |after| == |rows| && forall i | 0 <= i < |rows| :: RowStaysOrDrops(rows[i], after[i])
  }

  ghost predicate QueuedRowsPending(c: Contents) {
    forall a | a in c.pending :: a.slot < |c.rows| && c.rows[a.slot].decision == Pending
  }

  lemma SettledRowDrops(row: Row, after: Row, a: Arrival, nowNs: int, maximumAge: int, item: Option<Arrival>)
    requires Settles(row, after, a, nowNs, maximumAge, item) && row.decision == Pending
    ensures RowStaysOrDrops(row, after)
  {
  }

  lemma PopStaysOrDrops(c: Contents, after: Contents, n: nat, nowNs: int, maximumAge: int, item: Option<Arrival>)
    requires n <= |c.pending| && PopsFirst(c, after, n, nowNs, maximumAge, item) && QueuedRowsPending(c)
    ensures RowsStayOrDrop(c.rows, after.rows)
  {
    forall i | 0 <= i < |c.rows| ensures RowStaysOrDrops(c.rows[i], after.rows[i]) {
      if k :| 0 <= k < n && c.pending[k].slot == i {
        assert c.pending[k] in c.pending;
        SettledRowDrops(c.rows[i], after.rows[i], c.pending[k], nowNs, maximumAge, item);
      }
    }
  }

  lemma CancelStaysOrDrops(c: Contents, after: Contents, nowNs: int)
    requires Cancels(c, after, nowNs) && QueuedRowsPending(c)
    ensures RowsStayOrDrop(c.rows, after.rows)
  {
    forall i | 0 <= i < |c.rows| ensures RowStaysOrDrops(c.rows[i], after.rows[i]) {
      if k :| 0 <= k < |c.pending| && c.pending[k].slot == i {
        assert c.pending[k] in c.pending;
      }
    }
  }

  lemma DropsKeepReleases(c: Contents, after: Contents, nowNs: int)
    requires RowsStayOrDrop(c.rows, after.rows) && Records(c, after, nowNs)
    ensures KeepsReleases(c, after)
  {
    forall i | 0 <= i < |c.rows|
      ensures after.rows[i].enqueueNs == c.rows[i].enqueueNs
      ensures after.rows[i].decision == BacklogDrop <==> c.rows[i].decision == BacklogDrop
    {
      assert RowStaysOrDrops(c.rows[i], after.rows[i]);
    }
  }

  lemma PoppedStaysOrDrops(cfg: Config, s: State, now: int)
    requires Inv(cfg, s)
    ensures var after := Popped(s.q, now, cfg.maximumAge, cfg.latest).0;
      RowsStayOrDrop(s.q.rows, after.rows) && Records(s.q, after, now)
  {
    var (after, item) := Popped(s.q, now, cfg.maximumAge, cfg.latest);
    PopIsSeen(s.q, cfg.limit, now, cfg.maximumAge, cfg.latest);
    var n: nat :| Takes(s.q.pending, n, now, cfg.maximumAge, cfg.latest)
                  && PopsFirst(s.q, after, n, now, cfg.maximumAge, item);
    PopStaysOrDrops(s.q, after, n, now, cfg.maximumAge, item);
  }

  lemma CancelledStaysOrDrops(cfg: Config, s: State, now: int)
    requires Inv(cfg, s)
    ensures RowsStayOrDrop(s.q.rows, CancelledAll(s.q, now).rows) && Records(s.q, CancelledAll(s.q, now), now)
  {
    CancelIsSeen(s.q, cfg.limit, now);
    CancelStaysOrDrops(s.q, CancelledAll(s.q, now), now);
  }

  lemma DecisionKeepsReleases(cfg: Config, s: State, step: Step, at: seq<nat>)
    requires Inv(cfg, s) && Apply(cfg, s, step).Some? && (step.SubmitUnfresh? || step.Accept? || step.Settle?)
    requires Releases(s.q, at, cfg.limit)
    ensures KeepsReleases(s.q, Apply(cfg, s, step).value.q)
  {
    var after := Apply(cfg, s, step).value;
    var item, admitted, d := DecisionOf(cfg, s, step);
    assert s.q.rows[item.slot].decision != BacklogDrop;
    assert after.q.rows[item.slot].decision != BacklogDrop;
    DecideKeepsReleases(s.q, item.slot, admitted, d);
  }

  lemma DecideKeepsReleases(c: Contents, slot: nat, admitted: bool, d: Decision)
    requires slot < |c.rows| && c.rows[slot].decision != BacklogDrop && d != BacklogDrop
    requires |c.pending| + c.processing == TotalBefore(c.backlog, |c.backlog|)
    ensures KeepsReleases(c, Decide(c, slot, admitted, d))
  {
  }

  lemma PopStepKeeps(cfg: Config, s: State, now: int, at: seq<nat>)
    requires Inv(cfg, s) && Apply(cfg, s, Step.Pop(now)).Some? && Releases(s.q, at, cfg.limit)
    ensures KeepsReleases(s.q, Apply(cfg, s, Step.Pop(now)).value.q)
  {
    if !s.stop {
      PopApplies(cfg, s, now);
      PoppedStaysOrDrops(cfg, s, now);
      DropsKeepReleases(s.q, Popped(s.q, now, cfg.maximumAge, cfg.latest).0, now);
    }
  }

  lemma CancelStepKeeps(cfg: Config, s: State, now: int)
    requires Inv(cfg, s)
    ensures KeepsReleases(s.q, CancelledAll(s.q, now))
  {
    CancelledStaysOrDrops(cfg, s, now);
    DropsKeepReleases(s.q, CancelledAll(s.q, now), now);
  }

  lemma StepReleases(cfg: Config, s: State, step: Step, at: seq<nat>) returns (next: seq<nat>)
    requires Inv(cfg, s) && Apply(cfg, s, step).Some? && Releases(s.q, at, cfg.limit)
    ensures Releases(Apply(cfg, s, step).value.q, next, cfg.limit)
  {
    next := at;
    var after := Apply(cfg, s, step).value;
    if step.Emit? {
      var i := |s.q.rows|;
      EmitMeaning(s.q, cfg.limit, i, cfg.sources[i], step.nowNs);
      EmitReleases(s.q, after.q, at, cfg.limit, i, cfg.sources[i], step.nowNs);
      next := at + [|s.q.backlog|];
    } else if step.SubmitUnfresh? || step.Accept? || step.Settle? {
      DecisionKeepsReleases(cfg, s, step, at);
      ReleasesStay(s.q, after.q, at, cfg.limit);
    } else {
      QueueStepKeeps(cfg, s, step, at);
      ReleasesStay(s.q, after.q, at, cfg.limit);
    }
  }

  lemma QueueStepKeeps(cfg: Config, s: State, step: Step, at: seq<nat>)
    requires Inv(cfg, s) && Apply(cfg, s, step).Some? && Releases(s.q, at, cfg.limit)
    requires !step.Emit? && !step.SubmitUnfresh? && !step.Accept? && !step.Settle?
    ensures KeepsReleases(s.q, Apply(cfg, s, step).value.q)
  {
    if step.Pop? {
      PopStepKeeps(cfg, s, step.nowNs, at);
    } else if step.TestStop? || step.Cleanup? {
      CancelStepKeeps(cfg, s, step.nowNs);
    } else if step.Finish? {
      FinishKeepsReleases(s.q, step.nowNs);
    } else {
      ControlKeepsQueue(cfg, s, step);
    }
  }

  lemma FinishKeepsReleases(c: Contents, nowNs: int)
    ensures KeepsReleases(c, Finished(c, nowNs))
  {
  }

  /** The other steps change only where the threads are. */
  lemma ControlKeepsQueue(cfg: Config, s: State, step: Step)
    requires Apply(cfg, s, step).Some?
    requires step.Close? || step.SetStop? || step.CheckDone? || step.RaiseBeforeTry? || step.RaiseInBody?
             || step.RaiseInRelease?
    ensures Apply(cfg, s, step).value.q == s.q
  {
  }

  /**
   In every run, a row is dropped for the backlog exactly when the sample in front of the one taken
   at its release shows as many observations as the limit; that sample then shows the same number,
   and one more if the row was queued.
   */
  lemma {:induction false} DropsShowInSamples(cfg: Config, steps: seq<Step>) returns (at: seq<nat>)
    requires Run(cfg, steps).Some?
    ensures Releases(Run(cfg, steps).value.q, at, cfg.limit)
  {
    if steps == [] {
      at := [];
    } else {
      var before := steps[..|steps| - 1];
      at := DropsShowInSamples(cfg, before);
      RunsAreSound(cfg, before);
      at := StepReleases(cfg, Run(cfg, before).value, steps[|steps| - 1], at);
    }
  }

  /** The sample at the release alone does not tell: here it shows the limit, and the row is queued. */
  lemma FullSampleIsNotEnough()
    ensures var run := Run(Config(1, 0, false, [0]), [Emit(0)]);
      && run.Some? && run.value.q.rows == [Row(0, 0, 0, false, Pending)]
      && run.value.q.backlog == [Sample(0, 1, 0, 1)]
  {
    var cfg, steps := Config(1, 0, false, [0]), [Emit(0)];
    assert steps[..0] == [] && Run(cfg, []) == Some(START);
  }

  // ---------------------------------------------------------------------------
  // Stopping
  // ---------------------------------------------------------------------------

  /** An exception that left the loop, or a request that ended otherwise than completed, has set the stop event. */
  ghost predicate FailureStops(s: State) {
    && (s.phase.Aborted? ==> s.stop)
    && forall i | 0 <= i < |s.q.rows| && s.q.rows[i].decision in {Cancelled, Failed, Superseded} :: s.stop
  }

  /** Once the stop event is set it stays, and no further observation is taken from the queue. */
  lemma StopIsFinal(cfg: Config, s: State, step: Step)
    requires s.stop && Apply(cfg, s, step).Some?
    ensures Apply(cfg, s, step).value.stop && Apply(cfg, s, step).value.popped == s.popped
  {
  }

  lemma EmitKeepsStops(cfg: Config, s: State, now: int)
    requires FailureStops(s) && Apply(cfg, s, Emit(now)).Some?
    ensures FailureStops(Apply(cfg, s, Emit(now)).value)
  {
    var i, after := |s.q.rows|, Apply(cfg, s, Emit(now)).value;
    EmitMeaning(s.q, cfg.limit, i, cfg.sources[i], now);
    assert forall k | 0 <= k < i :: after.q.rows[k] == s.q.rows[k];
  }

  lemma DropsKeepStops(s: State, after: State)
    requires FailureStops(s) && RowsStayOrDrop(s.q.rows, after.q.rows) && (s.stop ==> after.stop)
    requires after.phase.Aborted? ==> s.phase.Aborted?
    ensures FailureStops(after)
  {
    forall i | 0 <= i < |after.q.rows| && after.q.rows[i].decision in {Cancelled, Failed, Superseded}
      ensures after.stop
    {
      assert RowStaysOrDrops(s.q.rows[i], after.q.rows[i]);
    }
  }

  lemma DecisionKeepsStops(cfg: Config, s: State, step: Step)
    requires FailureStops(s) && Apply(cfg, s, step).Some? && (step.SubmitUnfresh? || step.Accept? || step.Settle?)
    ensures FailureStops(Apply(cfg, s, step).value)
  {
  }

  lemma QueueKeepsStops(cfg: Config, s: State, step: Step)
    requires Inv(cfg, s) && FailureStops(s) && Apply(cfg, s, step).Some?
    requires step.Pop? || step.TestStop? || step.Cleanup?
    ensures FailureStops(Apply(cfg, s, step).value)
  {
    var after := Apply(cfg, s, step).value;
    match step
    case Pop(now) =>
      if !s.stop {
        PoppedStaysOrDrops(cfg, s, now);
        PopApplies(cfg, s, now);
        DropsKeepStops(s, after);
      }
    case TestStop(now) =>
      if s.stop {
        CancelledStaysOrDrops(cfg, s, now);
        DropsKeepStops(s, after);
      }
    case Cleanup(now) =>
      CancelledStaysOrDrops(cfg, s, now);
      DropsKeepStops(s, after);
  }

  lemma ControlKeepsStops(cfg: Config, s: State, step: Step)
    requires FailureStops(s) && Apply(cfg, s, step).Some?
    requires step.Close? || step.SetStop? || step.CheckDone? || step.RaiseBeforeTry? || step.RaiseInBody?
             || step.RaiseInRelease? || step.Finish?
    ensures FailureStops(Apply(cfg, s, step).value)
  {
  }

  /** In every run a failure stops the run: no observation is taken from the queue after it. */
  lemma {:induction false} FailuresStopRuns(cfg: Config, steps: seq<Step>)
    requires Run(cfg, steps).Some?
    ensures FailureStops(Run(cfg, steps).value)
  {
    if steps == [] {
    } else {
      var before, step := steps[..|steps| - 1], steps[|steps| - 1];
      var s := Run(cfg, before).value;
      FailuresStopRuns(cfg, before);
      RunsAreSound(cfg, before);
      match step
      case Emit(now) => EmitKeepsStops(cfg, s, now);
      case Pop(_) => QueueKeepsStops(cfg, s, step);
      case TestStop(_) => QueueKeepsStops(cfg, s, step);
      case Cleanup(_) => QueueKeepsStops(cfg, s, step);
      case SubmitUnfresh(_) => DecisionKeepsStops(cfg, s, step);
      case Accept(_) => DecisionKeepsStops(cfg, s, step);
      case Settle(_, _) => DecisionKeepsStops(cfg, s, step);
      case _ => ControlKeepsStops(cfg, s, step);
    }
  }

  /** The engine gets only observations that are of age when they are submitted, and the others become drops. */
  lemma SubmitsExactlyFresh(cfg: Config, s: State, now: int)
    requires s.phase.Holding? && s.phase.item.slot < |s.q.rows|
    ensures var age, slot := now - s.phase.item.sourceNs, s.phase.item.slot;
      && (Apply(cfg, s, Accept(now)).Some? <==> 0 <= age <= cfg.maximumAge)
      && (Apply(cfg, s, SubmitUnfresh(now)).Some? <==> !(0 <= age <= cfg.maximumAge))
      && (Apply(cfg, s, Accept(now)).Some? ==>
            Apply(cfg, s, Accept(now)).value.q.rows[slot].decision == Admitted)
      && (Apply(cfg, s, SubmitUnfresh(now)).Some? ==>
            Apply(cfg, s, SubmitUnfresh(now)).value.q.rows[slot].decision == if age < 0 then FutureDrop else StaleDrop)
  {
  }

  // ---------------------------------------------------------------------------
  // The accounting
  // ---------------------------------------------------------------------------

  ghost function Rows(rows: seq<Row>, decisions: set<Decision>): set<int> {
    set i | 0 <= i < |rows| && rows[i].decision in decisions
  }

  ghost function AcceptedRows(rows: seq<Row>): set<int> {
    set i | 0 <= i < |rows| && rows[i].admitted
  }

  const TERMINAL: set<Decision> := {Completed, Cancelled, Failed, Superseded}
  const DROPS: set<Decision> := {StaleDrop, FutureDrop, BacklogDrop, CoalescedDrop, CancelDrop}

  lemma OneMoreRow(rows: seq<Row>, decisions: set<Decision>)
    requires rows != []
    ensures var n := |rows| - 1;
      |Rows(rows, decisions)| == |Rows(rows[..n], decisions)| + if rows[n].decision in decisions then 1 else 0
  {
    var n := |rows| - 1;
    var before := Rows(rows[..n], decisions);
    assert Rows(rows, decisions) == before + if rows[n].decision in decisions then {n} else {};
    assert n !in before;
  }

  lemma OneMoreAccepted(rows: seq<Row>)
    requires rows != []
    ensures var n := |rows| - 1;
      |AcceptedRows(rows)| == |AcceptedRows(rows[..n])| + if rows[n].admitted then 1 else 0
  {
    var n := |rows| - 1;
    var before := AcceptedRows(rows[..n]);
    assert AcceptedRows(rows) == before + if rows[n].admitted then {n} else {};
    assert n !in before;
  }

  lemma OneMoreCounted(rows: seq<Row>)
    requires rows != []
    requires var before := rows[..|rows| - 1];
      && TerminalCount(before) == |Rows(before, TERMINAL)| && DropCount(before) == |Rows(before, DROPS)|
      && AcceptedCount(before) == |AcceptedRows(before)|
    ensures TerminalCount(rows) == |Rows(rows, TERMINAL)| && DropCount(rows) == |Rows(rows, DROPS)|
    ensures AcceptedCount(rows) == |AcceptedRows(rows)|
  {
    OneMoreRow(rows, TERMINAL);
    OneMoreRow(rows, DROPS);
    OneMoreAccepted(rows);
    TerminalCountGrows(rows);
    DropCountGrows(rows);
    DecisionSets(rows[|rows| - 1].decision);
  }

  /** The sums of the tally are the numbers of rows. */
  lemma {:induction false} CountsAreRows(rows: seq<Row>)
    ensures TerminalCount(rows) == |Rows(rows, TERMINAL)|
    ensures DropCount(rows) == |Rows(rows, DROPS)|
    ensures AcceptedCount(rows) == |AcceptedRows(rows)|
  {
    if rows == [] {
    } else {
      CountsAreRows(rows[..|rows| - 1]);
      OneMoreCounted(rows);
    }
  }

  lemma DecisionSets(d: Decision)
    ensures d.Terminal() <==> d in TERMINAL
    ensures d.CallerDrop() <==> d in DROPS
  {
  }

  /** What the accounting lets pass: all rows are settled, no observation has two, as many ended as were accepted. */
  lemma BalancedExactlyWhen(rows: seq<Row>, planned: nat)
    ensures Balanced(rows, planned) <==>
      && (forall i | 0 <= i < |rows| :: rows[i].decision != Pending && rows[i].decision != Admitted)
      && (forall i, j | 0 <= i < j < |rows| :: rows[i].sampleIndex != rows[j].sampleIndex)
      && |AcceptedRows(rows)| == |Rows(rows, TERMINAL)| && |rows| <= planned
    ensures DropCount(rows) == |Rows(rows, DROPS)|
  {
    CountsAreRows(rows);
    forall i | 0 <= i < |rows|
      ensures rows[i].decision.Terminal() || rows[i].decision.CallerDrop()
        <==> rows[i].decision != Pending && rows[i].decision != Admitted
    {
      DecisionSets(rows[i].decision);
    }
  }
}
