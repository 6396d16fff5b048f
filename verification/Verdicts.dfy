/** What the counters of matches and mismatches count. */
module Verdicts {
  import opened Wrappers
  import opened Model
  import opened Store
  import opened Matcher
  import opened Cells
  import opened Coherence
  import opened Conservation

  /** The step closes a window of its own transaction, and leaves its row with the given status. */
  predicate ClosesWith(s: State, a: Action, t: State, status: OverallStatus) {
    && ActionTx(a).Some? && ActionTx(a).value in s.windows && ActionTx(a).value !in t.windows
    && ActionTx(a).value in t.pg.transactions && t.pg.transactions[ActionTx(a).value].status == status
  }

  /** How many steps of a run do. */
  function Closes(cfg: Config, s: State, actions: seq<Action>, status: OverallStatus): nat
    decreases |actions|
  {
    if actions == [] then 0
    else
      var t := Step(cfg, s, actions[0]);
      (if ClosesWith(s, actions[0], t, status) then 1 else 0) + Closes(cfg, t, actions[1..], status)
  }

  // ----- Effects -----

  function Recorded(success: bool, ops: seq<Op>): nat
    decreases |ops|
  {
    if ops == [] then 0 else (if ops[0] == RecordMatch(success) then 1 else 0) + Recorded(success, ops[1..])
  }

  lemma {:induction false} ApplyRecorded(s: State, ops: seq<Op>)
    ensures Apply(s, ops).redis.matched == s.redis.matched + Recorded(true, ops)
    ensures Apply(s, ops).redis.mismatched == s.redis.mismatched + Recorded(false, ops)
    decreases |ops|
  {
    if ops == [] {
    } else {
      ApplyRecorded(ApplyOp(s, ops[0]), ops[1..]);
    }
  }

  lemma {:induction false} RecordedConcat(success: bool, a: seq<Op>, b: seq<Op>)
    ensures Recorded(success, a + b) == Recorded(success, a) + Recorded(success, b)
    decreases |a|
  {
    if a == [] {
      assert a + b == b;
    } else {
      assert (a + b)[1..] == a[1..] + b;
      RecordedConcat(success, a[1..], b);
    }
  }

  lemma {:induction false} NothingRecorded(success: bool, ops: seq<Op>)
    requires forall op <- ops :: !op.RecordMatch?
    ensures Recorded(success, ops) == 0
    decreases |ops|
  {
    if ops == [] {
    } else {
      assert ops[0] in ops;
      NothingRecorded(success, ops[1..]);
    }
  }

  /** One of the two counters goes up, and the status that is written says which. */
  lemma FinalizeRecorded(success: bool, cfg: Config, w: Window, env: Env)
    requires env.matchUp
    ensures Recorded(success, FinalizeOps(cfg, w, env)) ==
            if success == (FinalRow(w, env).status == MatchedStatus) then 1 else 0
  {
    hide CheckInvariants, BuildDetails, DetailOps, PersistAllOps;
    var pre := [UpsertTransaction(w.tx, FinalRow(w, env))] + DetailOps(w.tx, BuildDetails(w));
    var matched := CheckInvariants(w).Matched?;
    DetailShape(w.tx, BuildDetails(w));
    NothingRecorded(success, pre);
    NothingRecorded(success, CleanupOps(w.tx));
    var metric, rest := [RecordMatch(matched)], VerdictOps(cfg, w, env)[1..];
    assert VerdictOps(cfg, w, env) == metric + rest;
    if CheckInvariants(w).Mismatched? { PersistAllShape(cfg, CheckInvariants(w).incidents, env.now); }
    NothingRecorded(success, rest);
    assert metric[1..] == [];
    RecordedConcat(success, metric, rest);
    RecordedConcat(success, pre, VerdictOps(cfg, w, env));
    RecordedConcat(success, pre + VerdictOps(cfg, w, env), CleanupOps(w.tx));
  }

  lemma DegradeRecorded(success: bool, cfg: Config, tx: TxId, w: Window, env: Env)
    ensures Recorded(success, DegradeOps(cfg, tx, w, env)) == 0
  {
    hide BuildDetails, DetailOps, DegradedRow, MissingIncident;
    DetailShape(tx, BuildDetails(w));
    NothingRecorded(success, DegradeOps(cfg, tx, w, env));
  }

  lemma DuplicateRecorded(success: bool, cfg: Config, d: Delivery)
    ensures Recorded(success, DuplicateOps(cfg, d)) == 0
  {
    NothingRecorded(success, DuplicateOps(cfg, d));
  }

  lemma ArrivalRecorded(success: bool, cfg: Config, open: Option<Window>, d: Delivery)
    requires d.env.matchUp
    ensures var w := Extended(cfg, open, d);
            Recorded(success, ArrivalOps(cfg, open, d)) ==
            if IsComplete(w) && success == (FinalRow(Timed(w, d.env.elapsed), d.env).status == MatchedStatus) then 1
            else 0
  {
    hide FinalizeOps, FinalRow, IsComplete, Joined;
    var w := Extended(cfg, open, d);
    var first := OpenOps(cfg, open, d) + [SetWindow(w), SaveWindow(w)];
    NothingRecorded(success, first);
    FinalizeRecorded(success, cfg, Timed(w, d.env.elapsed), d.env);
    NothingRecorded(success, ProgressOps(w, d.env));
    NothingRecorded(success, ProcessedMetric(d.env.processedUp));
    RecordedConcat(success, first, ResultOps(cfg, w, d.env));
    RecordedConcat(success, first + ResultOps(cfg, w, d.env), ProcessedMetric(d.env.processedUp));
  }

  lemma EventRecorded(success: bool, cfg: Config, registered: bool, open: Option<Window>, d: Delivery)
    requires d.env.matchUp
    ensures var w := Extended(cfg, open, d);
            Recorded(success, EventOps(cfg, false, registered, open, d)) ==
            if !registered && IsComplete(w)
               && success == (FinalRow(Timed(w, d.env.elapsed), d.env).status == MatchedStatus) then 1
            else 0
  {
    hide DuplicateOps, ArrivalOps, FinalRow, IsComplete, Extended;
    var e := d.event;
    var pre := [ClaimEvent(e.eventId), RegisterSource(e.tx, e.source), TouchSources(e.tx)];
    var rest := if registered then DuplicateOps(cfg, d) else ArrivalOps(cfg, open, d);
    NothingRecorded(success, pre);
    if registered { DuplicateRecorded(success, cfg, d); } else { ArrivalRecorded(success, cfg, open, d); }
    RecordedConcat(success, pre, rest);
    assert EventOps(cfg, false, registered, open, d) == pre + rest;
  }

  // ----- Steps and runs -----

  lemma DeliverCounts(cfg: Config, s: State, d: Delivery)
    requires Inv(cfg, s) && Clean(Deliver(d, None))
    ensures var a := Deliver(d, None);
            var t := Step(cfg, s, a);
            && t.redis.matched == s.redis.matched + (if ClosesWith(s, a, t, MatchedStatus) then 1 else 0)
            && t.redis.mismatched == s.redis.mismatched + (if ClosesWith(s, a, t, MismatchStatus) then 1 else 0)
  {
    hide Apply, EventOps, Inv, CellOf, CellStep, Finalized, FinalRow, IsComplete, Extended, Coherent, Recorded;
    var tx, a := d.event.tx, Deliver(d, None);
    var t, open := Step(cfg, s, a), Lookup(s.windows, tx);
    ApplyRecorded(s, DeliverOps(cfg, s, d));
    InvKeyed(cfg, s);
    StepOnCell(cfg, s, a, tx);
    CoherentTx(cfg, s, tx);
    CleanCellStep(cfg, CellOf(s, tx), AlreadyClaimed(s, a), a);
    CellReads(s, d.event);
    RowRead(s, tx);
    RowRead(t, tx);
    if d.event.eventId in s.redis.claims {
      NoEventOps(cfg, Registered(s, d.event), open, d);
      NothingRecorded(true, []);
      NothingRecorded(false, []);
    } else {
      EventRecorded(true, cfg, Registered(s, d.event), open, d);
      EventRecorded(false, cfg, Registered(s, d.event), open, d);
      EventCloses(cfg, CellOf(s, tx), d);
    }
  }

  lemma RowRead(s: State, tx: TxId)
    ensures CellOf(s, tx).row == Lookup(s.pg.transactions, tx) && CellOf(s, tx).window == Lookup(s.windows, tx)
  {}

  /** An event closes its window exactly if it is the third source's, with the final status. */
  lemma EventCloses(cfg: Config, c: Cell, d: Delivery)
    ensures var x, w := AfterEvent(cfg, c, d), Extended(cfg, c.window, d);
            && (!Repeats(c, d.event) && IsComplete(w) ==>
                  && x.window.None? && x.row.Some?
                  && x.row.value.status == FinalRow(Timed(w, d.env.elapsed), d.env).status
                  && x.row.value.status in {MatchedStatus, MismatchStatus})
            && (Repeats(c, d.event) || !IsComplete(w) ==> c.window.Some? ==> x.window.Some?)
            && (c.window.None? ==> !IsComplete(w))
  {
    hide CheckInvariants, BuildDetails, PutAll, IsComplete;
    if c.window.None? { SingleEvent(cfg, d); }
  }

  lemma SingleEvent(cfg: Config, d: Delivery)
    ensures !IsComplete(Extended(cfg, None, d))
  {
    var events := Extended(cfg, None, d).events;
    assert events.Keys == {d.event.source} && |events.Keys| == |events|;
  }

  lemma TimeoutCounts(cfg: Config, s: State, tx: TxId, env: Env)
    requires Inv(cfg, s) && Clean(Timeout(tx, env, None))
    ensures var a := Timeout(tx, env, None);
            var t := Step(cfg, s, a);
            && t.redis.matched == s.redis.matched && t.redis.mismatched == s.redis.mismatched
            && !ClosesWith(s, a, t, MatchedStatus) && !ClosesWith(s, a, t, MismatchStatus)
  {
    hide Apply, DegradeOps, Inv, CellOf, CellStep, IsComplete, Coherent, Recorded, DegradedRow;
    var a := Timeout(tx, env, None);
    var t := Step(cfg, s, a);
    InvKeyed(cfg, s);
    CoherentTx(cfg, s, tx);
    StepOnCell(cfg, s, a, tx);
    CleanCellStep(cfg, CellOf(s, tx), false, a);
    CellReads2(s, tx);
    RowRead(s, tx);
    RowRead(t, tx);
    NothingRecorded(true, []);
    NothingRecorded(false, []);
    if tx in s.popped {
      var ops := TimeoutOps(cfg, tx, Lookup(s.windows, tx), env);
      ApplyRecorded(s.(popped := s.popped - multiset{tx}), ops);
      if tx in s.windows {
        var w := s.windows[tx];
        DegradedStays(CellOf(s, tx), tx, w, env);
        forall success: bool ensures Recorded(success, ops) == 0 {
          DegradeRecorded(success, cfg, tx, w, env);
          NothingRecorded(success, [RemoveWindow(tx)]);
          RecordedConcat(success, [RemoveWindow(tx)], DegradeOps(cfg, tx, w, env));
        }
      }
    } else {
      NotPopped(cfg, s, tx, env);
    }
  }

  lemma DegradedStays(c: Cell, tx: TxId, w: Window, env: Env)
    ensures forall n: nat ::
              var x := Degraded(c.(popped := n), tx, w, env);
              x.row.Some? && x.row.value.status == DegradedStatus
  {
    hide BuildDetails, PutAll;
  }

  /** A step without store failures counts a match exactly if it closes a window as matched, and a
      mismatch exactly if it closes one as mismatched. */
  lemma StepCounts(cfg: Config, s: State, a: Action)
    requires Inv(cfg, s) && Clean(a)
    ensures var t := Step(cfg, s, a);
            && t.redis.matched == s.redis.matched + (if ClosesWith(s, a, t, MatchedStatus) then 1 else 0)
            && t.redis.mismatched == s.redis.mismatched + (if ClosesWith(s, a, t, MismatchStatus) then 1 else 0)
  {
    hide Inv, Apply, DeliverOps, TimeoutStep;
    match a
    case Deliver(d, _) => DeliverCounts(cfg, s, d);
    case Timeout(tx, env, _) => TimeoutCounts(cfg, s, tx, env);
    case _ =>
  }

  lemma {:induction false} RunCounts(cfg: Config, s: State, actions: seq<Action>)
    requires Inv(cfg, s) && AllClean(actions)
    ensures var t := Run(cfg, s, actions);
            && t.redis.matched == s.redis.matched + Closes(cfg, s, actions, MatchedStatus)
            && t.redis.mismatched == s.redis.mismatched + Closes(cfg, s, actions, MismatchStatus)
    decreases |actions|
  {
    hide Inv, Step, ClosesWith;
    if actions == [] {
    } else {
      assert actions[0] in actions;
      StepCounts(cfg, s, actions[0]);
      StepKeepsInv(cfg, s, actions[0]);
      RunCounts(cfg, Step(cfg, s, actions[0]), actions[1..]);
    }
  }

  /** After every run without store failures, the two counters are the numbers of windows that were
      closed as matched and as mismatched. */
  lemma CountersCountCloses(cfg: Config, actions: seq<Action>)
    requires AllClean(actions)
    ensures var s := Run(cfg, INIT, actions);
            && s.redis.matched == Closes(cfg, INIT, actions, MatchedStatus)
            && s.redis.mismatched == Closes(cfg, INIT, actions, MismatchStatus)
  {
    InitCoherent(cfg);
    RunCounts(cfg, INIT, actions);
  }

  /** So the statistic on active windows is the number of duplicates, events of degraded windows
      and events in open windows, and two for each window that was matched or mismatched. */
  lemma ActiveWindowsStatIs(cfg: Config, actions: seq<Action>)
    requires AllClean(actions)
    ensures var s := Run(cfg, INIT, actions);
            ActiveWindowsStat(s.redis) ==
            CoveredBy(s.pg.incidents) + |Held(s.windows)| +
            2 * (Closes(cfg, INIT, actions, MatchedStatus) + Closes(cfg, INIT, actions, MismatchStatus))
  {
    hide Run, Held, CoveredBy, Closes;
    CountersCountCloses(cfg, actions);
    EventsAreConserved(cfg, actions);
  }
}
