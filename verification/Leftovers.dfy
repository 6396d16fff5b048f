/** Which failures leave a transaction with registered sources and no window, and what the next
    event then does. */
module Leftovers {
  import opened Wrappers
  import opened Model
  import opened Store
  import opened Matcher
  import opened Cells
  import opened Coherence
  import opened Streaming
  import opened Faults

  /** Sources are registered, but there is no window that they belong to. */
  predicate Leftover(c: Cell) {
    c.window.None? && OrEmpty(c.sources) != {}
  }

  predicate PendingAlone(c: Cell) {
    c.row.Some? && c.row.value.status == Pending && c.window.None?
  }

  /** Sources are registered exactly while a window is open, and so is a pending row. */
  predicate Sound(c: Cell) {
    && (c.window.Some? <==> c.sources.Some?) && (c.sources.Some? ==> c.sources.value != {})
    && !PendingAlone(c)
  }

  // ----- The next event -----

  /** In any cell whatever: an unclaimed event leaves a pending row without a window exactly if
      there is no window and its source is registered. If its source is not registered, it opens
      a window with a deadline, which closes the row again. */
  lemma PendingAloneIff(cfg: Config, c: Cell, d: Delivery)
    ensures PendingAlone(AfterEvent(cfg, c, d)) <==> c.window.None? && Repeats(c, d.event)
    ensures c.window.None? && !Repeats(c, d.event) ==>
              var x := AfterEvent(cfg, c, d);
              x.window.Some? && x.deadline == Some(x.window.value.deadline)
  {
    hide IsComplete, Finalized;
    var w := Extended(cfg, c.window, d);
    FinalStatus(c, Timed(w, d.env.elapsed), d.env);
    if c.window.None? { OneEventIncomplete(cfg, d); }
  }

  lemma FinalStatus(c: Cell, w: Window, env: Env)
    ensures var x := Finalized(c, w, env); x.row.Some? && x.row.value.status != Pending && x.window.None?
  {
    hide CheckInvariants, BuildDetails, PutAll;
  }

  lemma OneEventIncomplete(cfg: Config, d: Delivery)
    ensures !IsComplete(Extended(cfg, None, d))
  {
    var events := Extended(cfg, None, d).events;
    assert events.Keys == {d.event.source} && |events.Keys| == |events|;
  }

  // ----- Which steps leave sources behind -----

  /** The command at which a stopped call failed. */
  function FailedAt(ops: seq<Op>, stop: Option<nat>): Option<Op> {
    if stop.None? || StopIndex(ops, stop.value) == |ops| then None else Some(ops[StopIndex(ops, stop.value)])
  }

  /** The commands of a cleanup that follow the removal of the window. */
  predicate Cleaning(op: Op) {
    op.DeleteWindow? || op.RemoveDeadline? || op.CleanupSources?
  }

  /** An event leaves sources behind if it fails right after registering the first source of a
      transaction, or in the cleanup of its window; a timeout of an open window, wherever it
      fails. */
  predicate LeavesSources(cfg: Config, c: Cell, claimed: bool, a: Action) {
    match a
    case Deliver(d, stop) =>
      var failed := FailedAt(EventOps(cfg, claimed, Repeats(c, d.event), c.window, d), stop);
      failed.Some? && (Cleaning(failed.value) || (failed.value.TouchSources? && c.window.None?))
    case Timeout(tx, env, stop) =>
      c.popped > 0 && c.window.Some? && FailedAt(TimeoutOps(cfg, tx, c.window, env), stop).Some?
    case _ => false
  }

  predicate IsOpen(c: Cell) {
    c.window.Some? && OrEmpty(c.sources) != {}
  }

  predicate Mild(op: Op) {
    !op.RemoveWindow? && !Cleaning(op)
  }

  predicate Plain(op: Op) {
    Mild(op) && !op.TouchSources?
  }

  lemma {:induction false} StaysOpen(c: Cell, ops: seq<Op>)
    requires IsOpen(c) && forall op <- ops :: Mild(op)
    ensures IsOpen(CellApply(c, ops))
    decreases |ops|
  {
    if ops == [] {
    } else {
      assert ops[0] in ops;
      StaysOpen(CellOp(c, ops[0]), ops[1..]);
    }
  }

  lemma {:induction false} StaysClosed(c: Cell, ops: seq<Op>)
    requires c.window.None? && forall op <- ops :: !op.SetWindow? && !op.RegisterSource? && !op.CleanupSources?
    ensures CellApply(c, ops).window.None? && CellApply(c, ops).sources == c.sources
    decreases |ops|
  {
    if ops == [] {
    } else {
      assert ops[0] in ops;
      StaysClosed(CellOp(c, ops[0]), ops[1..]);
    }
  }

  /** Effects that end in a cleanup, from an open window: what a call that got to `i` leaves. */
  lemma ClosingPrefix(c: Cell, pre: seq<Op>, tx: TxId, post: seq<Op>, i: nat)
    requires IsOpen(c) && forall op <- pre :: Mild(op)
    requires i < |pre + CleanupOps(tx) + post|
    requires Fallible((pre + CleanupOps(tx) + post)[i]) && forall op <- post :: !Fallible(op)
    ensures var all := pre + CleanupOps(tx) + post;
            var x := CellApply(c, all[..i]);
            if Cleaning(all[i]) then Leftover(x) else IsOpen(x)
  {
    hide CellApply, Leftover, IsOpen, Mild;
    var all, n := pre + CleanupOps(tx) + post, |pre|;
    assert all[n] == RemoveWindow(tx);
    if i <= n {
      assert all[..i] == pre[..i];
      StaysOpen(c, pre[..i]);
      if i < n {
        assert all[i] in pre;
        NotCleaning(all[i]);
      }
    } else if i < n + 4 {
      assert all[i] == CleanupOps(tx)[i - n];
      var rest := CleanupOps(tx)[1..i - n];
      assert all[..i] == pre + [RemoveWindow(tx)] + rest;
      CellConcat(c, pre + [RemoveWindow(tx)], rest);
      CellConcat(c, pre, [RemoveWindow(tx)]);
      StaysOpen(c, pre);
      RemoveOnCell(CellApply(c, pre), tx);
      OpenThenRemoved(CellApply(c, pre));
      StaysClosed(CellApply(c, pre).(window := None), rest);
      ClosedLeftover(CellApply(c, pre), CellApply(c, all[..i]));
    }
  }

  lemma NotCleaning(op: Op)
    requires Mild(op)
    ensures !Cleaning(op)
  {}

  lemma OpenThenRemoved(c: Cell)
    requires IsOpen(c)
    ensures OrEmpty(c.sources) != {}
  {}

  lemma ClosedLeftover(c: Cell, x: Cell)
    requires OrEmpty(c.sources) != {} && x.window.None? && x.sources == c.sources
    ensures Leftover(x)
  {}

  lemma PerformedIs(ops: seq<Op>, stop: Option<nat>)
    ensures var failed := FailedAt(ops, stop);
            if failed.None? then Performed(ops, stop) == ops
            else exists i | 0 <= i < |ops| ::
                   ops[i] == failed.value && Fallible(ops[i]) && Performed(ops, stop) == ops[..i]
  {
    if stop.Some? {
      var i := StopIndex(ops, stop.value);
      if i < |ops| { assert ops[i] == FailedAt(ops, stop).value; }
    }
  }

  lemma ReportMild(cfg: Config, w: Window, env: Env)
    ensures forall op <- [UpsertTransaction(w.tx, FinalRow(w, env))] + DetailOps(w.tx, BuildDetails(w)) +
                         VerdictOps(cfg, w, env) :: Plain(op) && !op.SetWindow? && !op.RegisterSource?
  {
    hide BuildDetails, FinalRow, VerdictOps;
    DetailShape(w.tx, BuildDetails(w));
    VerdictShape(cfg, w, env);
  }

  lemma DegradeMild(cfg: Config, tx: TxId, w: Window, env: Env)
    ensures forall op <- [UpsertTransaction(tx, DegradedRow(w, env))] + DetailOps(tx, BuildDetails(w)) +
                         PersistIncidentOps(cfg, MissingIncident(tx, w), env.now) ::
              Mild(op) && !op.SetWindow? && !op.RegisterSource?
  {
    hide BuildDetails, DegradedRow, DetailOps, PersistIncidentOps, MissingIncident;
    DegradeInert(cfg, tx, w, env);
  }

  // ----- Timeouts -----

  /** A timeout that fails, at whichever command, has removed the window and not the sources. */
  lemma TimeoutLeaves(cfg: Config, c: Cell, tx: TxId, env: Env, stop: Option<nat>)
    requires IsOpen(c)
    ensures var ops := TimeoutOps(cfg, tx, c.window, env);
            var x := CellApply(c, Performed(ops, stop));
            if FailedAt(ops, stop).Some? then Leftover(x) else Sound(x)
  {
    hide CellApply, Performed, FailedAt, FinalizeOps, DegradeOps, IsComplete, Leftover, Sound, IsOpen;
    var ops := TimeoutOps(cfg, tx, c.window, env);
    PerformedIs(ops, stop);
    WindowOf(c);
    TimeoutShape(cfg, tx, c.window.value, env);
    if FailedAt(ops, stop).None? {
      TimeoutEffectOnCell(cfg, c, tx, env);
      AfterTimeoutSound(c, tx, env);
    } else {
      var i :| 0 <= i < |ops| && Fallible(ops[i]) && Performed(ops, stop) == ops[..i];
      RemovedPrefix(c, tx, ops, i);
    }
  }

  /** Effects that begin with the removal of the window and clear the sources last, if at all. */
  lemma RemovedPrefix(c: Cell, tx: TxId, ops: seq<Op>, i: nat)
    requires IsOpen(c) && i < |ops| && ops[0] == RemoveWindow(tx) && Fallible(ops[i])
    requires forall op <- ops[1..|ops| - 1] :: !op.SetWindow? && !op.RegisterSource? && !op.CleanupSources?
    ensures Leftover(CellApply(c, ops[..i]))
  {
    hide CellApply, Leftover, IsOpen;
    var rest := ops[1..i];
    assert ops[..i] == [RemoveWindow(tx)] + rest;
    CellConcat(c, [RemoveWindow(tx)], rest);
    RemoveOnCell(c, tx);
    OpenThenRemoved(c);
    forall op <- rest ensures !op.SetWindow? && !op.RegisterSource? && !op.CleanupSources? {
      assert op in ops[1..|ops| - 1];
    }
    StaysClosed(c.(window := None), rest);
    ClosedLeftover(c, CellApply(c, ops[..i]));
  }

  lemma WindowOf(c: Cell)
    requires IsOpen(c)
    ensures c.window.Some?
  {}

  lemma TimeoutShape(cfg: Config, tx: TxId, w: Window, env: Env)
    ensures var ops := TimeoutOps(cfg, tx, Some(w), env);
            && |ops| > 1 && ops[0] == RemoveWindow(tx)
            && forall op <- ops[1..|ops| - 1] :: !op.SetWindow? && !op.RegisterSource? && !op.CleanupSources?
  {
    hide VerdictOps, DetailOps, PersistIncidentOps, FinalRow, DegradedRow, MissingIncident, IsComplete, BuildDetails;
    ReportMild(cfg, w, env);
    DegradeMild(cfg, tx, w, env);
    var ops := TimeoutOps(cfg, tx, Some(w), env);
    var report := if IsComplete(w)
      then [UpsertTransaction(w.tx, FinalRow(w, env))] + DetailOps(w.tx, BuildDetails(w)) + VerdictOps(cfg, w, env)
      else [UpsertTransaction(tx, DegradedRow(w, env))] + DetailOps(tx, BuildDetails(w)) +
           PersistIncidentOps(cfg, MissingIncident(tx, w), env.now);
    var of := if IsComplete(w) then w.tx else tx;
    assert ops == [RemoveWindow(tx)] + (report + CleanupOps(of));
    assert ops[1..|ops| - 1] == report + [RemoveWindow(of), DeleteWindow(of), RemoveDeadline(of)];
  }

  lemma AfterTimeoutSound(c: Cell, tx: TxId, env: Env)
    requires c.window.Some?
    ensures Sound(AfterTimeout(c, tx, env))
  {
    hide CheckInvariants, BuildDetails, PutAll, IsComplete;
  }

  // ----- Events -----

  lemma ProgressPlain(cfg: Config, open: Option<Window>, d: Delivery)
    requires !IsComplete(Extended(cfg, open, d))
    ensures forall op <- ArrivalOps(cfg, open, d) :: Plain(op)
  {
    hide IsComplete, FinalizeOps;
  }

  lemma DuplicatePlain(cfg: Config, d: Delivery)
    ensures forall op <- DuplicateOps(cfg, d) :: Plain(op)
  {}

  /** The effects of the event that completes a window end in a cleanup. */
  lemma CompletingShape(cfg: Config, open: Option<Window>, d: Delivery) returns (pre: seq<Op>)
    requires IsComplete(Extended(cfg, open, d))
    ensures ArrivalOps(cfg, open, d) ==
            pre + CleanupOps(Extended(cfg, open, d).tx) + ProcessedMetric(d.env.processedUp)
    ensures forall op <- pre :: Plain(op)
  {
    hide IsComplete, VerdictOps, DetailOps, FinalRow, BuildDetails, Extended;
    var w := Extended(cfg, open, d);
    var t := Timed(w, d.env.elapsed);
    var report := [UpsertTransaction(t.tx, FinalRow(t, d.env))] + DetailOps(t.tx, BuildDetails(t)) +
                  VerdictOps(cfg, t, d.env);
    ReportMild(cfg, t, d.env);
    pre := OpenOps(cfg, open, d) + [SetWindow(w), SaveWindow(w)] + report;
    assert ResultOps(cfg, w, d.env) == report + CleanupOps(t.tx);
  }

  function FirstOps(e: PaymentEvent): seq<Op> {
    [ClaimEvent(e.eventId), RegisterSource(e.tx, e.source), TouchSources(e.tx)]
  }

  lemma EventShape(cfg: Config, registered: bool, open: Option<Window>, d: Delivery)
    ensures EventOps(cfg, false, registered, open, d) ==
            FirstOps(d.event) + (if registered then DuplicateOps(cfg, d) else ArrivalOps(cfg, open, d))
  {
    hide DuplicateOps, ArrivalOps;
  }

  lemma AfterEventSound(cfg: Config, c: Cell, d: Delivery)
    requires Sound(c)
    ensures Sound(AfterEvent(cfg, c, d)) && !Leftover(AfterEvent(cfg, c, d))
  {
    hide IsComplete, Finalized;
    var w := Timed(Extended(cfg, c.window, d), d.env.elapsed);
    PendingAloneIff(cfg, c, d);
    FinalizedSound(c, w, d.env);
  }

  lemma FinalizedSound(c: Cell, w: Window, env: Env)
    ensures var x := Finalized(c, w, env); x.window.None? && x.sources.None?
  {}

  /** An event in an open window that fails at position `i`. */
  lemma OpenPrefix(cfg: Config, c: Cell, d: Delivery, i: nat)
    requires IsOpen(c) && i < |EventOps(cfg, false, Repeats(c, d.event), c.window, d)|
    requires Fallible(EventOps(cfg, false, Repeats(c, d.event), c.window, d)[i])
    ensures var ops := EventOps(cfg, false, Repeats(c, d.event), c.window, d);
            var x := CellApply(c, ops[..i]);
            if Cleaning(ops[i]) then Leftover(x) else IsOpen(x)
  {
    hide CellApply, EventOps, DuplicateOps, ArrivalOps, IsComplete, Leftover, IsOpen, Repeats, Extended;
    var ops := EventOps(cfg, false, Repeats(c, d.event), c.window, d);
    EventShape(cfg, Repeats(c, d.event), c.window, d);
    if !Repeats(c, d.event) && IsComplete(Extended(cfg, c.window, d)) {
      var pre := CompletingShape(cfg, c.window, d);
      var tx, post := Extended(cfg, c.window, d).tx, ProcessedMetric(d.env.processedUp);
      assert ops == FirstOps(d.event) + pre + CleanupOps(tx) + post;
      ClosingPrefix(c, FirstOps(d.event) + pre, tx, post, i);
    } else {
      if Repeats(c, d.event) { DuplicatePlain(cfg, d); } else { ProgressPlain(cfg, c.window, d); }
      assert forall op <- ops :: Mild(op);
      assert ops[i] in ops;
      StaysOpen(c, ops[..i]);
      NotCleaning(ops[i]);
    }
  }

  /** An event without a window that fails at position `i`. */
  lemma ClosedPrefix(cfg: Config, c: Cell, d: Delivery, i: nat)
    requires c.window.None? && c.sources.None? && i < |EventOps(cfg, false, false, None, d)|
    requires Fallible(EventOps(cfg, false, false, None, d)[i])
    ensures var ops := EventOps(cfg, false, false, None, d);
            var x := CellApply(c, ops[..i]);
            && !Cleaning(ops[i])
            && (if ops[i].TouchSources? then Leftover(x) else x == c || IsOpen(x))
  {
    hide ArrivalOps, EventOps, IsComplete, Extended, CellApply;
    var ops := EventOps(cfg, false, false, None, d);
    EventShape(cfg, false, None, d);
    OneEventIncomplete(cfg, d);
    ProgressPlain(cfg, None, d);
    var arrival, w := ArrivalOps(cfg, None, d), Joined(cfg, None, d);
    ArrivalOpens(cfg, d);
    FirstThree(c, d.event);
    if i >= 3 {
      assert ops[3] == SetWindow(w) && ops[i] == arrival[i - 3];
      assert ops[..i] == FirstOps(d.event) + [SetWindow(w)] + arrival[1..i - 3];
      CellConcat(c, FirstOps(d.event) + [SetWindow(w)], arrival[1..i - 3]);
      CellConcat(c, FirstOps(d.event), [SetWindow(w)]);
      SetWindowOnCell(CellApply(c, FirstOps(d.event)), w);
      assert arrival[i - 3] in arrival && Plain(arrival[i - 3]);
      forall op <- arrival[1..i - 3] ensures Mild(op) { assert op in arrival; }
      StaysOpen(CellApply(c, FirstOps(d.event) + [SetWindow(w)]), arrival[1..i - 3]);
    } else {
      assert ops[..i] == FirstOps(d.event)[..i] && ops[i] == FirstOps(d.event)[i];
    }
  }

  lemma ArrivalOpens(cfg: Config, d: Delivery)
    ensures var arrival := ArrivalOps(cfg, None, d); arrival != [] && arrival[0] == SetWindow(Joined(cfg, None, d))
  {
    hide ResultOps;
  }

  lemma FirstThree(c: Cell, e: PaymentEvent)
    ensures CellApply(c, FirstOps(e)[..0]) == c && CellApply(c, FirstOps(e)[..1]) == c
    ensures CellApply(c, FirstOps(e)[..2]) == WithSource(c, e.source) == CellApply(c, FirstOps(e))
  {
    var ops := FirstOps(e);
    assert ops[..0] == [] && ops[..1] == [ops[0]] && ops[..2] == [ops[0], ops[1]];
    ClaimOnCell(c, e.eventId);
    CellApply2(c, ops[0], ops[1]);
    CellApply3(c, ops[0], ops[1], ops[2]);
  }

  /** From a sound cell, an event leaves sources without a window exactly if it fails at one of
      the commands that LeavesSources names; otherwise the cell stays sound. */
  lemma EventLeaves(cfg: Config, c: Cell, claimed: bool, d: Delivery, stop: Option<nat>)
    requires Sound(c)
    ensures var x := CellStep(cfg, c, claimed, Deliver(d, stop));
            if LeavesSources(cfg, c, claimed, Deliver(d, stop)) then Leftover(x) else Sound(x) && !Leftover(x)
  {
    hide CellApply, Performed, FailedAt, EventOps, AfterEvent;
    var ops := EventOps(cfg, claimed, Repeats(c, d.event), c.window, d);
    PerformedIs(ops, stop);
    if claimed {
      NoEventOps(cfg, Repeats(c, d.event), c.window, d);
      EmptyOnCell(c);
    } else if FailedAt(ops, stop).None? {
      EventOnCell(cfg, c, d);
      AfterEventSound(cfg, c, d);
    } else {
      var i :| 0 <= i < |ops| && ops[i] == FailedAt(ops, stop).value && Fallible(ops[i])
               && Performed(ops, stop) == ops[..i];
      if c.window.Some? { OpenPrefix(cfg, c, d, i); } else { ClosedPrefix(cfg, c, d, i); }
    }
  }

  // ----- Runs with failures -----

  lemma StepLeavesIff(cfg: Config, c: Cell, claimed: bool, a: Action)
    requires Sound(c)
    ensures var x := CellStep(cfg, c, claimed, a);
            if LeavesSources(cfg, c, claimed, a) then Leftover(x) else Sound(x) && !Leftover(x)
  {
    hide CellApply, Performed, FailedAt, EventOps, TimeoutOps;
    match a
    case Deliver(d, stop) => EventLeaves(cfg, c, claimed, d, stop);
    case Timeout(tx, env, stop) =>
      if c.popped > 0 {
        var c0 := c.(popped := c.popped - 1);
        if c.window.Some? { TimeoutLeaves(cfg, c0, tx, env, stop); } else { NoTimeout(cfg, c0, tx, env, stop); }
      }
    case _ =>
  }

  lemma NoTimeout(cfg: Config, c: Cell, tx: TxId, env: Env, stop: Option<nat>)
    requires c.window.None?
    ensures CellApply(c, Performed(TimeoutOps(cfg, tx, c.window, env), stop)) == c
  {}

  predicate StepLeaves(cfg: Config, s: State, a: Action) {
    ActionTx(a).Some? && LeavesSources(cfg, CellOf(s, ActionTx(a).value), AlreadyClaimed(s, a), a)
  }

  /** Failures anywhere, but none of those that leave sources behind. */
  predicate LeavesNothing(cfg: Config, s: State, actions: seq<Action>)
    decreases |actions|
  {
    actions == [] || (!StepLeaves(cfg, s, actions[0]) && LeavesNothing(cfg, Step(cfg, s, actions[0]), actions[1..]))
  }

  ghost predicate AllSound(s: State) {
    Keyed(s) && forall tx: TxId :: Sound(CellOf(s, tx))
  }

  lemma {:induction false} RunKeepsSound(cfg: Config, s: State, actions: seq<Action>)
    requires AllSound(s) && LeavesNothing(cfg, s, actions)
    ensures AllSound(Run(cfg, s, actions))
    decreases |actions|
  {
    hide Step, CellOf, CellStep, LeavesSources, Sound, Leftover, Keyed;
    if actions == [] {
    } else {
      var a, t := actions[0], Step(cfg, s, actions[0]);
      assert Keyed(t) by { StepKeepsKeyed(cfg, s, a); }
      forall tx: TxId ensures Sound(CellOf(t, tx)) {
        StepOnCell(cfg, s, a, tx);
        assert Sound(CellOf(s, tx));
        if ActionTx(a) == Some(tx) { StepLeavesIff(cfg, CellOf(s, tx), AlreadyClaimed(s, a), a); }
      }
      RunKeepsSound(cfg, t, actions[1..]);
    }
  }

  lemma InitSound()
    ensures AllSound(INIT)
  {}

  /** A pending row implies an open window in every run in which no step leaves sources behind,
      whatever else fails in it. */
  lemma PendingMeansOpen(cfg: Config, actions: seq<Action>)
    requires LeavesNothing(cfg, INIT, actions)
    ensures var s := Run(cfg, INIT, actions);
            forall tx <- s.pg.transactions :: s.pg.transactions[tx].status == Pending ==> tx in s.windows
  {
    hide LeavesNothing, Run, IncidentsOf;
    InitSound();
    RunKeepsSound(cfg, INIT, actions);
    var s := Run(cfg, INIT, actions);
    forall tx <- s.pg.transactions | s.pg.transactions[tx].status == Pending ensures tx in s.windows {
      assert Sound(CellOf(s, tx));
    }
  }

  /** And when a step does: after such a run, one more step and then one more event of the same
      transaction leave a pending row without a window exactly if that step leaves sources
      behind and the event's source is one of them. */
  lemma PendingAloneAfterStepIff(cfg: Config, actions: seq<Action>, a: Action, d: Delivery)
    requires LeavesNothing(cfg, INIT, actions) && ActionTx(a) == Some(d.event.tx) && Clean(Deliver(d, None))
    requires d.event.eventId !in Step(cfg, Run(cfg, INIT, actions), a).redis.claims
    ensures var s := Run(cfg, INIT, actions);
            var t := Step(cfg, s, a);
            PendingAlone(CellOf(Step(cfg, t, Deliver(d, None)), d.event.tx)) <==>
              StepLeaves(cfg, s, a) && Registered(t, d.event)
  {
    hide LeavesNothing, Run, Step, CellOf, CellStep, LeavesSources, Sound, PendingAlone, AfterEvent, Keyed;
    InitSound();
    RunKeepsSound(cfg, INIT, actions);
    var s, tx := Run(cfg, INIT, actions), d.event.tx;
    var t, deliver := Step(cfg, s, a), Deliver(d, None);
    assert Sound(CellOf(s, tx));
    StepKeepsKeyed(cfg, s, a);
    StepOnCell(cfg, s, a, tx);
    StepLeavesIff(cfg, CellOf(s, tx), AlreadyClaimed(s, a), a);
    StepOnCell(cfg, t, deliver, tx);
    CleanCellStep(cfg, CellOf(t, tx), AlreadyClaimed(t, deliver), deliver);
    PendingAloneIff(cfg, CellOf(t, tx), d);
    RepeatsIs(t, d.event);
  }

  lemma RepeatsIs(s: State, e: PaymentEvent)
    ensures Repeats(CellOf(s, e.tx), e) <==> Registered(s, e)
    ensures Repeats(CellOf(s, e.tx), e) ==> OrEmpty(CellOf(s, e.tx).sources) != {}
  {}

  // ----- One failing run -----

  lemma {:induction false} SourcesUntouched(c: Cell, ops: seq<Op>)
    requires forall op <- ops :: !op.RegisterSource? && !op.CleanupSources?
    ensures CellApply(c, ops).sources == c.sources
    decreases |ops|
  {
    if ops == [] {
    } else {
      assert ops[0] in ops;
      SourcesUntouched(CellOp(c, ops[0]), ops[1..]);
    }
  }

  lemma CellApplyLast(c: Cell, ops: seq<Op>)
    requires ops != []
    ensures CellApply(c, ops) == CellOp(CellApply(c, ops[..|ops| - 1]), ops[|ops| - 1])
  {
    hide CellOp;
    var front, last := ops[..|ops| - 1], ops[|ops| - 1];
    assert ops == front + [last];
    CellConcat(c, front, [last]);
    var t := CellApply(c, front);
    assert CellApply(t, [last]) == CellApply(CellOp(t, last), [last][1..]);
  }

  /** handle_timeout up to, and without, its last command. */
  function UpToCleanup(cfg: Config, tx: TxId, w: Window, env: Env): Option<nat> {
    Some(|TimeoutOps(cfg, tx, Some(w), env)| - 1)
  }

  lemma LastIsCleanup(cfg: Config, tx: TxId, w: Window, env: Env)
    requires !IsComplete(w)
    ensures var ops := TimeoutOps(cfg, tx, Some(w), env);
            && ops != [] && ops[|ops| - 1] == CleanupSources(tx)
            && Performed(ops, UpToCleanup(cfg, tx, w, env)) == ops[..|ops| - 1]
            && forall op <- ops[..|ops| - 1] :: !op.RegisterSource? && !op.CleanupSources?
  {
    hide IsComplete, BuildDetails, DegradedRow, DetailOps, PersistIncidentOps, MissingIncident;
    var ops := TimeoutOps(cfg, tx, Some(w), env);
    var report := [UpsertTransaction(tx, DegradedRow(w, env))] + DetailOps(tx, BuildDetails(w)) +
                  PersistIncidentOps(cfg, MissingIncident(tx, w), env.now);
    DegradeInert(cfg, tx, w, env);
    assert ops == [RemoveWindow(tx)] + (report + CleanupOps(tx));
    assert ops[..|ops| - 1] == [RemoveWindow(tx)] + report + [RemoveWindow(tx), DeleteWindow(tx), RemoveDeadline(tx)];
    forall op <- ops[..|ops| - 1] ensures !op.RegisterSource? && !op.CleanupSources? {
      if op in report { assert Inert(op); }
    }
  }

  /** For example: a timeout that fails at its last command leaves the sources registered. The
      next event of one of them sets the row to pending, with no window, checkpoint or deadline. */
  lemma FailedCleanupReopensTheRow(cfg: Config, s: State, env: Env, d: Delivery)
    requires Inv(cfg, s) && d.event.tx in s.windows && d.event.tx in s.popped
    requires d.event.source in s.windows[d.event.tx].events && d.event.eventId !in s.redis.claims
    requires d.env.processedUp && d.env.matchUp
    ensures var tx := d.event.tx;
            var stop := UpToCleanup(cfg, tx, s.windows[tx], env);
            var c := CellOf(Run(cfg, s, [Timeout(tx, env, stop), Deliver(d, None)]), tx);
            && c.row.Some? && c.row.value.status == Pending
            && c.window.None? && c.checkpoint.None? && c.deadline.None?
  {
    hide Run, CellOf, Step, CellStep, Inv, CellApply, TimeoutOps, Coherent, UpToCleanup, Performed, Degraded;
    var tx := d.event.tx;
    var w := s.windows[tx];
    var stop := UpToCleanup(cfg, tx, w, env);
    var timeout, deliver := Timeout(tx, env, stop), Deliver(d, None);
    RunTwo(cfg, s, timeout, deliver);
    InvKeyed(cfg, s);
    CoherentTx(cfg, s, tx);
    OpenCell(cfg, s, tx);
    StepKeepsKeyed(cfg, s, timeout);
    StepOnCell(cfg, s, timeout, tx);
    var t := Step(cfg, s, timeout);
    StepOnCell(cfg, t, deliver, tx);
    StoppedTimeoutCell(cfg, CellOf(s, tx), tx, env);
    CleanCellStep(cfg, CellOf(t, tx), AlreadyClaimed(t, deliver), deliver);
    StuckDuplicate(cfg, CellOf(t, tx), d);
  }

  lemma OpenCell(cfg: Config, s: State, tx: TxId)
    requires Inv(cfg, s) && tx in s.windows && tx in s.popped
    ensures var c := CellOf(s, tx);
            c.popped > 0 && c.window == Some(s.windows[tx]) && c.sources == Some(s.windows[tx].events.Keys)
            && !IsComplete(s.windows[tx])
  {
    hide Inv, IncidentsOf, WellKeyed, IsComplete;
    CoherentTx(cfg, s, tx);
  }

  lemma StoppedTimeoutCell(cfg: Config, c: Cell, tx: TxId, env: Env)
    requires c.popped > 0 && c.window.Some? && !IsComplete(c.window.value)
    ensures var stop := UpToCleanup(cfg, tx, c.window.value, env);
            var x := CellStep(cfg, c, false, Timeout(tx, env, stop));
            x.window.None? && x.checkpoint.None? && x.deadline.None? && x.sources == c.sources
  {
    hide CellApply, TimeoutOps, IsComplete, Performed, UpToCleanup, Degraded;
    var c0, w := c.(popped := c.popped - 1), c.window.value;
    var ops := TimeoutOps(cfg, tx, Some(w), env);
    LastIsCleanup(cfg, tx, w, env);
    CellApplyLast(c0, ops);
    SourcesUntouched(c0, ops[..|ops| - 1]);
    TimeoutEffectOnCell(cfg, c0, tx, env);
    DegradedCloses(c0, tx, w, env);
  }

  lemma DegradedCloses(c: Cell, tx: TxId, w: Window, env: Env)
    ensures var x := Degraded(c, tx, w, env); x.window.None? && x.checkpoint.None? && x.deadline.None?
  {}

  lemma StuckDuplicate(cfg: Config, c: Cell, d: Delivery)
    requires c.window.None? && c.checkpoint.None? && c.deadline.None? && d.event.source in OrEmpty(c.sources)
    ensures var x := AfterEvent(cfg, c, d);
            x.row.Some? && x.row.value.status == Pending && x.window.None? && x.checkpoint.None? && x.deadline.None?
  {}
}
