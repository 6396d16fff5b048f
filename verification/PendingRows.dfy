/** The exact condition, step by step over every run, under which a pending row has no open window. */
module PendingRows {
  import opened Wrappers
  import opened Model
  import opened Store
  import opened Matcher
  import opened Cells
  import opened Coherence
  import opened Streaming
  import opened Leftovers

  // ----- The condition -----

  /** The event has not got as far as its first effect beyond registering its source. */
  predicate AtTheDoor(failed: Option<Op>) {
    failed.Some? && (failed.value.ClaimEvent? || failed.value.RegisterSource? || failed.value.TouchSources?)
  }

  function EventFailure(cfg: Config, c: Cell, claimed: bool, d: Delivery, stop: Option<nat>): Option<Op> {
    FailedAt(EventOps(cfg, claimed, Repeats(c, d.event), c.window, d), stop)
  }

  predicate FailsAtRow(failed: Option<Op>) {
    failed.Some? && failed.value.UpsertTransaction?
  }

  predicate RowPending(c: Cell) {
    c.row.Some? && c.row.value.status == Pending
  }

  /** What separates a pending row from its window: an unclaimed event of a registered source of a
      transaction without a window, if it gets past the row's upsert; or the timeout of an open
      window whose row is pending, if it fails at the row's upsert. */
  predicate Separates(cfg: Config, c: Cell, claimed: bool, a: Action) {
    match a
    case Deliver(d, stop) =>
      var failed := EventFailure(cfg, c, claimed, d, stop);
      !claimed && c.window.None? && Repeats(c, d.event) && !AtTheDoor(failed) && !FailsAtRow(failed)
    case Timeout(tx, env, stop) =>
      c.popped > 0 && c.window.Some? && RowPending(c) && FailsAtRow(FailedAt(TimeoutOps(cfg, tx, c.window, env), stop))
    case _ => false
  }

  /** What reunites them: an unclaimed event of a source that is not registered, if it gets past
      registering it. */
  predicate Reunites(cfg: Config, c: Cell, claimed: bool, a: Action) {
    a.Deliver? && !claimed && !Repeats(c, a.d.event) && !AtTheDoor(EventFailure(cfg, c, claimed, a.d, a.stop))
  }

  // ----- Windows and rows along a prefix -----

  lemma {:induction false} WindowStays(c: Cell, ops: seq<Op>)
    requires c.window.Some? && forall op <- ops :: !op.RemoveWindow?
    ensures CellApply(c, ops).window.Some?
    decreases |ops|
  {
    if ops == [] {
    } else {
      assert ops[0] in ops;
      WindowStays(CellOp(c, ops[0]), ops[1..]);
    }
  }

  lemma {:induction false} WindowStaysAway(c: Cell, ops: seq<Op>)
    requires c.window.None? && forall op <- ops :: !op.SetWindow?
    ensures CellApply(c, ops).window.None?
    decreases |ops|
  {
    if ops == [] {
    } else {
      assert ops[0] in ops;
      WindowStaysAway(CellOp(c, ops[0]), ops[1..]);
    }
  }

  lemma {:induction false} RowUntouched(c: Cell, ops: seq<Op>)
    requires forall op <- ops :: !op.UpsertTransaction?
    ensures CellApply(c, ops).row == c.row
    decreases |ops|
  {
    if ops == [] {
    } else {
      assert ops[0] in ops;
      RowUntouched(CellOp(c, ops[0]), ops[1..]);
    }
  }

  /** Every write of the row is of this kind, so after one of them the row is. */
  lemma {:induction false} RowWritten(c: Cell, ops: seq<Op>, pending: bool)
    requires forall op <- ops :: op.UpsertTransaction? ==> (op.row.status == Pending <==> pending)
    requires (exists op <- ops :: op.UpsertTransaction?) || (c.row.Some? && (RowPending(c) <==> pending))
    ensures CellApply(c, ops).row.Some? && (RowPending(CellApply(c, ops)) <==> pending)
    decreases |ops|
  {
    if ops == [] {
    } else {
      assert ops[0] in ops;
      if !ops[0].UpsertTransaction? && exists op <- ops :: op.UpsertTransaction? {
        var op :| op in ops && op.UpsertTransaction?;
        assert op in ops[1..];
      }
      RowWritten(CellOp(c, ops[0]), ops[1..], pending);
    }
  }

  // ----- Timeouts -----

  /** One final status first, and no other write of the row. */
  predicate RowOnce(ops: seq<Op>) {
    && ops != [] && ops[0].UpsertTransaction? && ops[0].row.status != Pending
    && forall op <- ops[1..] :: !op.UpsertTransaction? && !op.SetWindow?
  }

  lemma FinalizeRows(cfg: Config, w: Window, env: Env)
    ensures RowOnce(FinalizeOps(cfg, w, env))
  {
    hide VerdictOps, DetailOps, CheckInvariants, BuildDetails;
    DetailShape(w.tx, BuildDetails(w));
    VerdictShape(cfg, w, env);
    var rest := DetailOps(w.tx, BuildDetails(w)) + VerdictOps(cfg, w, env) + CleanupOps(w.tx);
    assert FinalizeOps(cfg, w, env)[1..] == rest;
  }

  lemma DegradeRows(cfg: Config, tx: TxId, w: Window, env: Env)
    ensures RowOnce(DegradeOps(cfg, tx, w, env))
  {
    hide DetailOps, PersistIncidentOps, MissingIncident, BuildDetails;
    DetailShape(tx, BuildDetails(w));
    PersistShape(cfg, MissingIncident(tx, w), env.now);
    var rest := DetailOps(tx, BuildDetails(w)) + PersistIncidentOps(cfg, MissingIncident(tx, w), env.now) +
                CleanupOps(tx);
    assert DegradeOps(cfg, tx, w, env)[1..] == rest;
  }

  lemma TimeoutRows(cfg: Config, tx: TxId, w: Window, env: Env)
    ensures var ops := TimeoutOps(cfg, tx, Some(w), env);
            && |ops| >= 2 && ops[0] == RemoveWindow(tx) && RowOnce(ops[1..])
  {
    hide FinalizeOps, DegradeOps, RowOnce, IsComplete;
    FinalizeRows(cfg, w, env);
    DegradeRows(cfg, tx, w, env);
    var rest := if IsComplete(w) then FinalizeOps(cfg, w, env) else DegradeOps(cfg, tx, w, env);
    assert TimeoutOps(cfg, tx, Some(w), env)[1..] == rest;
    assert rest != [] by { RowOnceNotEmpty(rest); }
  }

  lemma RowOnceNotEmpty(ops: seq<Op>)
    requires RowOnce(ops)
    ensures ops != []
  {}

  lemma PersistShape(cfg: Config, i: Incident, now: int)
    ensures forall op <- PersistIncidentOps(cfg, i, now) :: op.CreateIncident? || op.AddEscalation? || op.Publish?
  {}

  lemma TimeoutAloneIff(cfg: Config, c: Cell, tx: TxId, env: Env, stop: Option<nat>)
    requires c.window.Some?
    ensures var ops := TimeoutOps(cfg, tx, c.window, env);
            PendingAlone(CellApply(c, Performed(ops, stop))) <==> RowPending(c) && FailsAtRow(FailedAt(ops, stop))
  {
    hide CellApply, Performed, FailedAt, TimeoutOps;
    var ops := TimeoutOps(cfg, tx, c.window, env);
    TimeoutRows(cfg, tx, c.window.value, env);
    PerformedIs(ops, stop);
    assert ops[..|ops|] == ops;
    var i: nat := |ops|;
    if FailedAt(ops, stop).Some? {
      i :| 0 <= i < |ops| && ops[i] == FailedAt(ops, stop).value && Fallible(ops[i])
           && Performed(ops, stop) == ops[..i];
    }
    TimeoutPrefix(c, tx, ops, i);
  }

  lemma TimeoutPrefix(c: Cell, tx: TxId, ops: seq<Op>, i: nat)
    requires |ops| >= 2 && ops[0] == RemoveWindow(tx) && RowOnce(ops[1..])
    requires i <= |ops| && (i < |ops| ==> Fallible(ops[i]))
    ensures PendingAlone(CellApply(c, ops[..i])) <==> RowPending(c) && i == 1
    ensures i < |ops| ==> (ops[i].UpsertTransaction? <==> i == 1)
  {
    hide CellApply;
    if i == 1 {
      assert ops[..i] == [RemoveWindow(tx)];
      RemoveOnCell(c, tx);
    } else {
      assert ops[1] == ops[1..][0] && ops[..i][1] == ops[1] && ops[1] in ops[..i];
      forall op <- ops[..i] ensures op.UpsertTransaction? ==> op.row.status != Pending {
        var j :| 0 <= j < i && ops[j] == op;
        if j > 1 { assert op == ops[1..][1..][j - 2]; }
      }
      RowWritten(c, ops[..i], false);
      if i < |ops| { assert ops[i] == ops[1..][1..][i - 2]; }
    }
  }

  // ----- Events in an open window -----

  lemma CompletingRows(cfg: Config, open: Option<Window>, d: Delivery) returns (pre: seq<Op>)
    requires IsComplete(Extended(cfg, open, d))
    ensures ArrivalOps(cfg, open, d) ==
            pre + CleanupOps(Extended(cfg, open, d).tx) + ProcessedMetric(d.env.processedUp)
    ensures (forall op <- pre :: !op.RemoveWindow?) && exists op <- pre :: op.UpsertTransaction?
    ensures forall op <- pre :: op.UpsertTransaction? ==> op.row.status != Pending
  {
    hide IsComplete, VerdictOps, DetailOps, CheckInvariants, BuildDetails, Extended;
    var w := Extended(cfg, open, d);
    var t := Timed(w, d.env.elapsed);
    var upsert := UpsertTransaction(t.tx, FinalRow(t, d.env));
    DetailShape(t.tx, BuildDetails(t));
    VerdictShape(cfg, t, d.env);
    var start := OpenOps(cfg, open, d) + [SetWindow(w), SaveWindow(w)];
    var report := [upsert] + DetailOps(t.tx, BuildDetails(t)) + VerdictOps(cfg, t, d.env);
    pre := start + report;
    assert upsert in pre;
    assert ResultOps(cfg, w, d.env) == report + CleanupOps(t.tx);
  }

  /** Wherever an event in an open window gets to, there is a window or the row is not pending. */
  lemma OpenEventPrefix(cfg: Config, c: Cell, d: Delivery, i: nat)
    requires c.window.Some? && i <= |EventOps(cfg, false, Repeats(c, d.event), c.window, d)|
    ensures !PendingAlone(CellApply(c, EventOps(cfg, false, Repeats(c, d.event), c.window, d)[..i]))
  {
    hide CellApply, EventOps, DuplicateOps, ArrivalOps, IsComplete, Repeats, Extended;
    var ops := EventOps(cfg, false, Repeats(c, d.event), c.window, d);
    EventShape(cfg, Repeats(c, d.event), c.window, d);
    if !Repeats(c, d.event) && IsComplete(Extended(cfg, c.window, d)) {
      var pre := CompletingRows(cfg, c.window, d);
      var tx, post := Extended(cfg, c.window, d).tx, ProcessedMetric(d.env.processedUp);
      var all := FirstOps(d.event) + pre;
      assert ops == all + (CleanupOps(tx) + post);
      if i <= |all| {
        assert ops[..i] == all[..i];
        forall op <- all[..i] ensures !op.RemoveWindow? { assert op in all; }
        WindowStays(c, all[..i]);
      } else {
        assert ops[..i] == all + (CleanupOps(tx) + post)[..i - |all|];
        var op :| op in pre && op.UpsertTransaction?;
        assert op in ops[..i];
        RowWritten(c, ops[..i], false);
      }
    } else {
      if Repeats(c, d.event) { DuplicatePlain(cfg, d); } else { ProgressPlain(cfg, c.window, d); }
      assert forall op <- ops :: Mild(op);
      forall op <- ops[..i] ensures !op.RemoveWindow? { assert op in ops; }
      WindowStays(c, ops[..i]);
    }
  }

  // ----- Events without a window -----

  lemma DuplicateRows(cfg: Config, d: Delivery)
    ensures var ops := DuplicateOps(cfg, d);
            && ops != [] && ops[0].UpsertTransaction? && ops[0].row.status == Pending
            && (forall op <- ops[1..] :: !op.UpsertTransaction?)
            && forall op <- ops :: !op.SetWindow? && !AtTheDoor(Some(op))
  {
    hide PersistIncidentOps;
    PersistShape(cfg, DuplicateIncident(d.event), d.env.now);
    var ops := DuplicateOps(cfg, d);
    assert ops[1..] == PersistIncidentOps(cfg, DuplicateIncident(d.event), d.env.now) +
                       ProcessedMetric(d.env.processedUp);
  }

  /** A repeated source without a window: the row is pending from the upsert on. */
  lemma RepeatedPrefix(cfg: Config, c: Cell, d: Delivery, i: nat)
    requires c.window.None? && i <= |FirstOps(d.event) + DuplicateOps(cfg, d)|
    ensures var ops := FirstOps(d.event) + DuplicateOps(cfg, d);
            && |ops| > 3 && CellApply(c, ops[..i]).window.None?
            && (RowPending(CellApply(c, ops[..i])) <==> i > 3 || RowPending(c))
            && (i < |ops| ==> (AtTheDoor(Some(ops[i])) <==> i < 3) && (ops[i].UpsertTransaction? <==> i == 3))
  {
    hide CellApply, DuplicateOps;
    var ops := FirstOps(d.event) + DuplicateOps(cfg, d);
    DuplicateRows(cfg, d);
    WindowStaysAway(c, ops[..i]);
    if i <= 3 {
      assert ops[..i] == FirstOps(d.event)[..i];
      RowUntouched(c, ops[..i]);
    } else {
      assert ops[..i][3] == DuplicateOps(cfg, d)[0] && ops[..i][3] in ops[..i];
      forall op <- ops[..i] ensures op.UpsertTransaction? ==> op.row.status == Pending {
        var j :| 0 <= j < i && ops[j] == op;
        if j > 3 { assert op == DuplicateOps(cfg, d)[1..][j - 4]; }
      }
      RowWritten(c, ops[..i], true);
    }
    if 3 < i < |ops| {
      assert ops[i] == DuplicateOps(cfg, d)[1..][i - 4] && ops[i] in DuplicateOps(cfg, d);
    }
  }

  /** A new source without a window: it opens one, right after registering. */
  lemma NewSourcePrefix(cfg: Config, c: Cell, d: Delivery, i: nat)
    requires c.window.None? && i <= |FirstOps(d.event) + ArrivalOps(cfg, None, d)|
    requires i < |FirstOps(d.event) + ArrivalOps(cfg, None, d)| ==>
               Fallible((FirstOps(d.event) + ArrivalOps(cfg, None, d))[i])
    ensures var ops := FirstOps(d.event) + ArrivalOps(cfg, None, d);
            var x := CellApply(c, ops[..i]);
            && (if i < 3 then x.window.None? && x.row == c.row else x.window.Some?)
            && (i < |ops| ==> (AtTheDoor(Some(ops[i])) <==> i < 3))
  {
    hide CellApply, ArrivalOps, IsComplete, Extended, Joined;
    var first, arrival := FirstOps(d.event), ArrivalOps(cfg, None, d);
    var ops := first + arrival;
    OneEventIncomplete(cfg, d);
    ArrivalOpens(cfg, d);
    ArrivalInside(cfg, d);
    if i < 3 {
      assert ops[..i] == first[..i] && ops[i] == first[i];
      WindowStaysAway(c, ops[..i]);
      RowUntouched(c, ops[..i]);
    } else {
      assert ops[3] == arrival[0];
      if i < |ops| { assert ops[i] == arrival[i - 3] && ops[i] in arrival; }
      assert i > 3;
      var w, rest := arrival[0].window, arrival[1..i - 3];
      assert ops[..i] == first + [SetWindow(w)] + rest;
      CellConcat(c, first + [SetWindow(w)], rest);
      CellConcat(c, first, [SetWindow(w)]);
      SetWindowOnCell(CellApply(c, first), w);
      forall op <- rest ensures !op.RemoveWindow? { assert op in arrival; }
      WindowStays(CellApply(c, first + [SetWindow(w)]), rest);
    }
  }

  lemma ArrivalInside(cfg: Config, d: Delivery)
    ensures forall op <- ArrivalOps(cfg, None, d) :: !op.RemoveWindow? && !AtTheDoor(Some(op))
  {
    hide IsComplete, FinalizeOps;
    OneEventIncomplete(cfg, d);
  }

  lemma EventAloneIff(cfg: Config, c: Cell, d: Delivery, stop: Option<nat>)
    ensures var ops := EventOps(cfg, false, Repeats(c, d.event), c.window, d);
            var failed := FailedAt(ops, stop);
            PendingAlone(CellApply(c, Performed(ops, stop))) <==>
              && c.window.None?
              && (if Repeats(c, d.event) then RowPending(c) || (!AtTheDoor(failed) && !FailsAtRow(failed))
                  else RowPending(c) && AtTheDoor(failed))
  {
    hide CellApply, Performed, FailedAt, EventOps, DuplicateOps, ArrivalOps, Repeats, AtTheDoor;
    var ops := EventOps(cfg, false, Repeats(c, d.event), c.window, d);
    var failed := FailedAt(ops, stop);
    PerformedIs(ops, stop);
    EventShape(cfg, Repeats(c, d.event), c.window, d);
    assert ops[..|ops|] == ops;
    var i: nat := |ops|;
    if failed.None? {
      NotFailed();
    } else {
      i :| 0 <= i < |ops| && ops[i] == failed.value && Fallible(ops[i]) && Performed(ops, stop) == ops[..i];
    }
    if c.window.Some? {
      OpenEventPrefix(cfg, c, d, i);
    } else if Repeats(c, d.event) {
      RepeatedPrefix(cfg, c, d, i);
    } else {
      NewSourcePrefix(cfg, c, d, i);
    }
  }

  lemma NotFailed()
    ensures !AtTheDoor(None)
  {}

  // ----- Steps and runs -----

  /** A step leaves a pending row without a window exactly if it found one and does not reunite
      them, or found none and separates them. This holds in any cell, for any failure. */
  lemma CellAloneIff(cfg: Config, c: Cell, claimed: bool, a: Action)
    ensures PendingAlone(CellStep(cfg, c, claimed, a)) <==>
              if PendingAlone(c) then !Reunites(cfg, c, claimed, a) else Separates(cfg, c, claimed, a)
  {
    hide CellApply, Performed, FailedAt, EventOps, TimeoutOps, Repeats, AtTheDoor;
    match a
    case Deliver(d, stop) =>
      RepeatsMeans(c, d.event);
      if claimed {
        NoEventOps(cfg, Repeats(c, d.event), c.window, d);
        NothingPerformed(c, stop);
      } else {
        EventAloneIff(cfg, c, d, stop);
      }
    case Timeout(tx, env, stop) =>
      if c.popped > 0 {
        var c0 := c.(popped := c.popped - 1);
        if c.window.Some? { TimeoutAloneIff(cfg, c0, tx, env, stop); } else { NoTimeout(cfg, c0, tx, env, stop); }
      }
    case _ =>
  }

  lemma RepeatsMeans(c: Cell, e: PaymentEvent)
    ensures Repeats(c, e) == (e.source in OrEmpty(c.sources))
  {}

  lemma NothingPerformed(c: Cell, stop: Option<nat>)
    ensures CellApply(c, Performed([], stop)) == c
  {}

  /** In every state of every run, and for every transaction, whatever fails. */
  lemma StepAloneIff(cfg: Config, s: State, a: Action, tx: TxId)
    requires Keyed(s)
    ensures var c := CellOf(s, tx);
            PendingAlone(CellOf(Step(cfg, s, a), tx)) <==>
              if ActionTx(a) != Some(tx) then PendingAlone(c)
              else if PendingAlone(c) then !Reunites(cfg, c, AlreadyClaimed(s, a), a)
              else Separates(cfg, c, AlreadyClaimed(s, a), a)
  {
    hide Step, CellOf, CellStep, PendingAlone, Reunites, Separates;
    StepOnCell(cfg, s, a, tx);
    if ActionTx(a) == Some(tx) { CellAloneIff(cfg, CellOf(s, tx), AlreadyClaimed(s, a), a); }
  }

  /** While sources are registered exactly with a window, only a timeout can separate them: it
      fails at the upsert of a row that a duplicate made pending. */
  lemma SoundAloneIff(cfg: Config, c: Cell, claimed: bool, a: Action)
    requires Sound(c)
    ensures PendingAlone(CellStep(cfg, c, claimed, a)) <==>
              && a.Timeout? && c.popped > 0 && c.window.Some? && RowPending(c)
              && FailsAtRow(FailedAt(TimeoutOps(cfg, a.tx, c.window, a.env), a.stop))
  {
    hide CellStep, FailedAt, EventOps, TimeoutOps;
    CellAloneIff(cfg, c, claimed, a);
  }

  // ----- One failing run -----

  /** For example: a first event, a duplicate of its source, which makes the row pending, the pop
      of the deadline, and a timeout that fails at its first command. */
  lemma DuplicateThenFailedTimeout(cfg: Config, d: Delivery, e: Delivery, env: Env)
    requires Clean(Deliver(d, None)) && Clean(Deliver(e, None))
    requires d.event.tx == e.event.tx && d.event.source == e.event.source && d.event.eventId != e.event.eventId
    ensures var tx := d.event.tx;
            PendingAlone(CellOf(Run(cfg, INIT, [Deliver(d, None), Deliver(e, None), PopDeadline(tx),
                                                Timeout(tx, env, Some(0))]), tx))
  {
    hide Run, Step, CellOf, CellStep, Inv, AfterEvent, PendingAlone, FailsAtRow, FailedAt, TimeoutOps, Coherent;
    var tx, a, b := d.event.tx, Deliver(d, None), Deliver(e, None);
    var pop, timeout := PopDeadline(tx), Timeout(tx, env, Some(0));
    InitCoherent(cfg);
    StepKeepsInv(cfg, INIT, a);
    var s1 := Step(cfg, INIT, a);
    StepKeepsInv(cfg, s1, b);
    var s2 := Step(cfg, s1, b);
    StepKeepsInv(cfg, s2, pop);
    var s3 := Step(cfg, s2, pop);
    InvKeyed(cfg, INIT);
    InvKeyed(cfg, s1);
    InvKeyed(cfg, s2);
    InvKeyed(cfg, s3);
    StepOnCell(cfg, INIT, a, tx);
    StepOnCell(cfg, s1, b, tx);
    StepOnCell(cfg, s2, pop, tx);
    CleanCellStep(cfg, CellOf(INIT, tx), false, a);
    CleanCellStep(cfg, CellOf(s1, tx), false, b);
    CleanCellStep(cfg, CellOf(s2, tx), false, pop);
    NewCell(tx);
    FirstThenDuplicate(cfg, CellOf(INIT, tx), d, e);
    RunFour(cfg, INIT, a, b, pop, timeout);
    TimeoutFailsAtRow(cfg, tx, CellOf(s3, tx).window.value, env);
    assert !PendingAlone(CellOf(s3, tx)) by { OpenNotAlone(CellOf(s3, tx)); }
    StepAloneIff(cfg, s3, timeout, tx);
  }

  lemma NewCell(tx: TxId)
    ensures CellOf(INIT, tx) == Cell(None, None, None, None, 0, None, map[], [])
  {}

  lemma OpenNotAlone(c: Cell)
    requires c.window.Some?
    ensures !PendingAlone(c)
  {}

  lemma FirstThenDuplicate(cfg: Config, c: Cell, d: Delivery, e: Delivery)
    requires c == Cell(None, None, None, None, 0, None, map[], []) && d.event.source == e.event.source
    ensures var x := AfterEvent(cfg, AfterEvent(cfg, c, d), e);
            var y := CleanStep(cfg, x, false, PopDeadline(e.event.tx));
            y.window.Some? && RowPending(y) && y.popped > 0
  {
    hide IsComplete, Finalized;
    OneEventIncomplete(cfg, d);
  }

  lemma TimeoutFailsAtRow(cfg: Config, tx: TxId, w: Window, env: Env)
    ensures FailsAtRow(FailedAt(TimeoutOps(cfg, tx, Some(w), env), Some(0)))
  {
    hide TimeoutOps;
    TimeoutRows(cfg, tx, w, env);
    assert TimeoutOps(cfg, tx, Some(w), env)[1] == TimeoutOps(cfg, tx, Some(w), env)[1..][0];
    var ops := TimeoutOps(cfg, tx, Some(w), env);
    assert StopIndex(ops, 0) == StopIndex(ops, 1) == 1;
  }

  lemma RunFour(cfg: Config, s: State, a: Action, b: Action, c: Action, d: Action)
    ensures Run(cfg, s, [a, b, c, d]) == Step(cfg, Step(cfg, Step(cfg, Step(cfg, s, a), b), c), d)
  {
    hide Step;
    RunTwo(cfg, s, a, b);
    RunTwo(cfg, Run(cfg, s, [a, b]), c, d);
    assert [a, b, c, d] == [a, b] + [c, d];
    RunConcat(cfg, s, [a, b], [c, d]);
  }
}
