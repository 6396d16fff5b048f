/** What a failed finalisation and a restart leave to be done, and who does it. */
module Recovery {
  import opened Wrappers
  import opened Model
  import opened Store
  import opened Matcher
  import opened Cells
  import opened Coherence
  import opened Streaming
  import opened Faults
  import opened Leftovers
  import opened PendingRows
  import opened Incidents

  // ----- A failed finalisation -----

  /** Window and deadline are not written by these. */
  predicate Reports(op: Op) {
    !op.SetWindow? && !op.RemoveWindow? && !op.AddDeadline? && !op.RemoveDeadline?
  }

  lemma {:induction false} WindowAndDeadlineStay(c: Cell, ops: seq<Op>)
    requires forall op <- ops :: Reports(op)
    ensures var x := CellApply(c, ops); x.window == c.window && x.deadline == c.deadline && x.popped == c.popped
    decreases |ops|
  {
    if ops == [] {
    } else {
      assert ops[0] in ops;
      WindowAndDeadlineStay(CellOp(c, ops[0]), ops[1..]);
    }
  }

  /** The event that completes an open window first stores it, then reports, then cleans up. */
  lemma CompletingParts(cfg: Config, w0: Window, d: Delivery) returns (report: seq<Op>)
    requires w0.events != map[] && IsComplete(Extended(cfg, Some(w0), d))
    ensures var w := Extended(cfg, Some(w0), d);
            EventOps(cfg, false, false, Some(w0), d) ==
            FirstOps(d.event) + [SetWindow(w)] + report + CleanupOps(w.tx) + ProcessedMetric(d.env.processedUp)
    ensures forall op <- report :: Reports(op)
    ensures forall op <- report :: !Cleaning(op) && !AtTheDoor(Some(op))
  {
    hide IsComplete, FinalizeOps, FirstOps, CleanupOps, Reports, Cleaning, AtTheDoor, EventOps, ProcessedMetric;
    var w := Extended(cfg, Some(w0), d);
    var t := Timed(w, d.env.elapsed);
    var final := FinalReport(cfg, t, d.env);
    report := [SaveWindow(w)] + final;
    SaveReports(w);
    assert OpenOps(cfg, Some(w0), d) == [];
    assert ResultOps(cfg, w, d.env) == final + CleanupOps(t.tx);
    EventShape(cfg, false, Some(w0), d);
    assert [SetWindow(w), SaveWindow(w)] == [SetWindow(w)] + [SaveWindow(w)];
  }

  lemma SaveReports(w: Window)
    ensures Reports(SaveWindow(w)) && !Cleaning(SaveWindow(w)) && !AtTheDoor(Some(SaveWindow(w)))
  {}

  lemma FinalReport(cfg: Config, w: Window, env: Env) returns (final: seq<Op>)
    ensures FinalizeOps(cfg, w, env) == final + CleanupOps(w.tx)
    ensures forall op <- final :: Reports(op) && !Cleaning(op) && !AtTheDoor(Some(op))
  {
    hide VerdictOps, DetailOps, FinalRow, BuildDetails;
    DetailShape(w.tx, BuildDetails(w));
    VerdictShape(cfg, w, env);
    final := [UpsertTransaction(w.tx, FinalRow(w, env))] + DetailOps(w.tx, BuildDetails(w)) + VerdictOps(cfg, w, env);
  }

  lemma KeptPrefix(cfg: Config, c: Cell, w0: Window, d: Delivery, i: nat)
    requires c.window == Some(w0) && w0.events != map[] && IsComplete(Extended(cfg, Some(w0), d))
    requires i < |EventOps(cfg, false, false, Some(w0), d)| && Fallible(EventOps(cfg, false, false, Some(w0), d)[i])
    requires var op := EventOps(cfg, false, false, Some(w0), d)[i]; !AtTheDoor(Some(op)) && !Cleaning(op)
    ensures var x := CellApply(c, EventOps(cfg, false, false, Some(w0), d)[..i]);
            x.window == Some(Extended(cfg, Some(w0), d)) && x.deadline == c.deadline && x.popped == c.popped
  {
    hide CellApply, EventOps, IsComplete, Extended;
    var ops, w := EventOps(cfg, false, false, Some(w0), d), Extended(cfg, Some(w0), d);
    var report := CompletingParts(cfg, w0, d);
    var front, post := FirstOps(d.event) + [SetWindow(w)], ProcessedMetric(d.env.processedUp);
    var n := |front + report|;
    assert forall k | 0 <= k < 3 :: ops[k] == FirstOps(d.event)[k];
    assert ops[3] == SetWindow(w);
    assert ops == front + report + CleanupOps(w.tx) + post;
    assert 4 <= i < n by { WhereItFailed(ops, front + report, w.tx, post, i); }
    assert ops[..i] == front + report[..i - 4];
    CellConcat(c, front, report[..i - 4]);
    CellConcat(c, FirstOps(d.event), [SetWindow(w)]);
    WindowAndDeadlineStay(c, FirstOps(d.event));
    SetWindowOnCell(CellApply(c, FirstOps(d.event)), w);
    WindowAndDeadlineStay(CellApply(c, front), report[..i - 4]);
  }

  lemma WhereItFailed(ops: seq<Op>, before: seq<Op>, tx: TxId, post: seq<Op>, i: nat)
    requires ops == before + CleanupOps(tx) + post && i < |ops| && Fallible(ops[i]) && |before| >= 4
    requires before[0].ClaimEvent? && before[1].RegisterSource? && before[2].TouchSources? && before[3].SetWindow?
    requires forall op <- post :: !Fallible(op)
    requires !AtTheDoor(Some(ops[i])) && !Cleaning(ops[i])
    ensures 4 <= i < |before|
  {
    var n := |before|;
    assert forall k | n <= k < n + 4 :: ops[k] == CleanupOps(tx)[k - n];
    assert forall k | n + 4 <= k < |ops| :: ops[k] == post[k - n - 4];
  }

  /** If the third source's event fails anywhere between storing the window and cleaning it up, the
      complete window stays in memory with its deadline queued or popped, and its timeout, when it is
      handled, reports the batch verdict on the three events and leaves no trace. */
  lemma FailedFinalisationIsRepaired(cfg: Config, s: State, d: Delivery, stop: Option<nat>, env: Env)
    requires Inv(cfg, s) && d.event.tx in s.windows
    requires d.event.eventId !in s.redis.claims && !Registered(s, d.event)
    requires IsComplete(Extended(cfg, Some(s.windows[d.event.tx]), d))
    requires var failed := FailedAt(DeliverOps(cfg, s, d), stop);
             failed.Some? && !AtTheDoor(failed) && !Cleaning(failed.value)
    ensures var tx := d.event.tx;
            var t, events := Step(cfg, s, Deliver(d, stop)), s.windows[tx].events[d.event.source := d.event];
            && tx in t.windows && t.windows[tx].events == events && (tx in t.redis.deadlines || tx in t.popped)
            && ReportedInBatch(CellOf(t, tx), CellOf(Run(cfg, t, [PopDeadline(tx), Timeout(tx, env, None)]), tx), tx,
                               events)
  {
    hide Step, CellOf, CellStep, CellApply, Inv, EventOps, Performed, FailedAt, IsComplete, ReportedInBatch, Run,
         Coherent, AtTheDoor;
    var tx, a := d.event.tx, Deliver(d, stop);
    var w0, ops := s.windows[tx], DeliverOps(cfg, s, d);
    var t := Step(cfg, s, a);
    InvKeyed(cfg, s);
    CoherentTx(cfg, s, tx);
    StepOnCell(cfg, s, a, tx);
    StepKeepsKeyed(cfg, s, a);
    NewSource(cfg, s, d);
    PerformedIs(ops, stop);
    var i :| 0 <= i < |ops| && ops[i] == FailedAt(ops, stop).value && Fallible(ops[i])
             && Performed(ops, stop) == ops[..i];
    SameFailure(ops[i], FailedAt(ops, stop));
    KeptPrefix(cfg, CellOf(s, tx), w0, d, i);
    assert CellOf(t, tx) == CellApply(CellOf(s, tx), ops[..i]) by { StoppedCell(cfg, CellOf(s, tx), d, stop); }
    InMemory(s, tx);
    InMemory(t, tx);
    TimeoutFinalises(cfg, t, tx, env);
  }

  lemma SameFailure(op: Op, failed: Option<Op>)
    requires failed == Some(op)
    ensures AtTheDoor(failed) == AtTheDoor(Some(op))
  {}

  lemma StoppedCell(cfg: Config, c: Cell, d: Delivery, stop: Option<nat>)
    ensures CellStep(cfg, c, false, Deliver(d, stop)) ==
            CellApply(c, Performed(EventOps(cfg, false, d.event.source in OrEmpty(c.sources), c.window, d), stop))
  {
    hide CellApply, EventOps, Performed;
  }

  lemma NewSource(cfg: Config, s: State, d: Delivery)
    requires d.event.tx in s.windows && d.event.eventId !in s.redis.claims && !Registered(s, d.event)
    ensures var c := CellOf(s, d.event.tx);
            && c.window == Some(s.windows[d.event.tx])
            && !(d.event.source in OrEmpty(c.sources))
            && DeliverOps(cfg, s, d) == EventOps(cfg, false, false, c.window, d)
  {
    hide EventOps, CellApply, Performed;
  }

  lemma InMemory(s: State, tx: TxId)
    ensures var c := CellOf(s, tx);
            && c.window == Lookup(s.windows, tx) && (c.deadline.Some? <==> tx in s.redis.deadlines)
            && (c.popped > 0 <==> tx in s.popped)
  {}

  // ----- Restarts and escalations -----

  /** A restart keeps every open incident of severity 1 queued exactly if none of them is only in the
      hands of an escalation pass: what a pass had popped is lost with the process. */
  lemma RestartKeepsQueuedIff(s: State, scan: seq<Window>)
    requires AllQueued(s)
    ensures AllQueued(Restarted(s, scan)) <==>
              forall id: nat | id < |s.pg.incidents| :: Waiting(s, id) ==> id in s.redis.escalations
  {
    hide RowsOk, Restore;
    var t := Restarted(s, scan);
    forall id: nat | id < |s.pg.incidents| ensures Waiting(t, id) == Waiting(s, id) {}
  }
}
