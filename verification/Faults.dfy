/** Store failures at any `?`, redeliveries, crashes and restarts. */
module Faults {
  import opened Wrappers
  import opened Model
  import opened Store
  import opened Matcher
  import opened Cells
  import opened Coherence
  import opened Streaming

  // ----- Redelivery -----

  /** The run without the deliveries of event ids that were delivered before. */
  function WithoutRedeliveries(heard: set<EventId>, actions: seq<Action>): seq<Action>
    decreases |actions|
  {
    if actions == [] then []
    else
      var a := actions[0];
      (if a.Deliver? && a.d.event.eventId in heard then [] else [a]) +
      WithoutRedeliveries(heard + ClaimedBy(a), actions[1..])
  }

  lemma ClaimedDeliveryIsStutter(cfg: Config, s: State, d: Delivery, stop: Option<nat>)
    requires d.event.eventId in s.redis.claims
    ensures Step(cfg, s, Deliver(d, stop)) == s
  {
    NoEventOps(cfg, Registered(s, d.event), Lookup(s.windows, d.event.tx), d);
    assert Performed([], stop) == [];
    assert Apply(s, []) == s;
  }

  /** A message whose handling failed is not acknowledged, so that it can be retried. The retry
      does nothing, unless it was the claim itself that failed. */
  lemma RetryIsLostIff(cfg: Config, s: State, d: Delivery, stop: Option<nat>)
    requires Keyed(s) && d.event.eventId !in s.redis.claims
    ensures var t := Step(cfg, s, Deliver(d, stop));
            Step(cfg, t, Deliver(d, None)) == t <==> stop != Some(0)
  {
    hide Step, CellStep, CellOf;
    StepOnCell(cfg, s, Deliver(d, stop), 0);
    var t := Step(cfg, s, Deliver(d, stop));
    StepKeepsKeyed(cfg, s, Deliver(d, stop));
    if stop != Some(0) {
      ClaimedDeliveryIsStutter(cfg, t, d, None);
    } else {
      StepOnCell(cfg, t, Deliver(d, None), 0);
      assert d.event.eventId in Step(cfg, t, Deliver(d, None)).redis.claims;
    }
  }

  /** Inside the dedup window a delivery of an id that was claimed before changes nothing, even
      if its first handling stopped part-way: a run and the same run without redeliveries end
      in the same state. */
  lemma {:induction false} RedeliveryIsStutter(cfg: Config, s: State, actions: seq<Action>)
    requires Keyed(s)
    ensures Run(cfg, s, actions) == Run(cfg, s, WithoutRedeliveries(s.redis.claims, actions))
    decreases |actions|
  {
    hide Step, Keyed, CellOf;
    if actions == [] {
    } else {
      var a := actions[0];
      StepOnCell(cfg, s, a, 0);
      StepKeepsKeyed(cfg, s, a);
      RedeliveryIsStutter(cfg, Step(cfg, s, a), actions[1..]);
      var rest := WithoutRedeliveries(s.redis.claims + ClaimedBy(a), actions[1..]);
      if a.Deliver? && a.d.event.eventId in s.redis.claims {
        ClaimedDeliveryIsStutter(cfg, s, a.d, a.stop);
        assert s.redis.claims + ClaimedBy(a) == s.redis.claims;
        assert WithoutRedeliveries(s.redis.claims, actions) == rest;
      } else {
        assert WithoutRedeliveries(s.redis.claims, actions) == [a] + rest;
        assert ([a] + rest)[1..] == rest;
      }
    }
  }

  // ----- Properties that hold after every single effect -----

  datatype Promise = NotStranded | CrashSafe

  /** NotStranded: a window in memory that holds an event has a deadline in the queue or in a
      timer pass. CrashSafe: a checkpoint has its own deadline in the queue and its sources are
      registered. */
  predicate Holds(p: Promise, c: Cell) {
    match p
    case NotStranded =>
      c.window.Some? && c.window.value.events != map[] ==> c.deadline.Some? || c.popped > 0
    case CrashSafe =>
      c.checkpoint.Some? ==>
        && c.deadline == Some(c.checkpoint.value.deadline) && c.sources.Some?
        && c.checkpoint.value.events.Keys <= OrEmpty(c.sources)
  }

  predicate Throughout(p: Promise, c: Cell, ops: seq<Op>)
    decreases |ops|
  {
    Holds(p, c) && (ops == [] || Throughout(p, CellOp(c, ops[0]), ops[1..]))
  }

  lemma {:induction false} ThroughoutPrefix(p: Promise, c: Cell, ops: seq<Op>, k: nat)
    requires Throughout(p, c, ops) && k <= |ops|
    ensures Holds(p, CellApply(c, ops[..k]))
    decreases k
  {
    hide Holds, CellOp;
    if k == 0 {
    } else {
      assert ops[..k][1..] == ops[1..][..k - 1];
      ThroughoutPrefix(p, CellOp(c, ops[0]), ops[1..], k - 1);
    }
  }

  lemma {:induction false} ThroughoutConcat(p: Promise, c: Cell, a: seq<Op>, b: seq<Op>)
    requires Throughout(p, c, a) && Throughout(p, CellApply(c, a), b)
    ensures Throughout(p, c, a + b)
    decreases |a|
  {
    hide Holds, CellOp;
    if a == [] {
      assert a + b == b;
    } else {
      assert (a + b)[1..] == a[1..] + b;
      ThroughoutConcat(p, CellOp(c, a[0]), a[1..], b);
    }
  }

  lemma Throughout2(p: Promise, c: Cell, a: Op, b: Op)
    requires Holds(p, c) && Holds(p, CellOp(c, a)) && Holds(p, CellOp(CellOp(c, a), b))
    ensures Throughout(p, c, [a, b])
  {
    hide Holds, CellOp;
    assert [a, b][1..] == [b] && [b][1..] == [];
    assert Throughout(p, CellOp(CellOp(c, a), b), []);
    assert Throughout(p, CellOp(c, a), [b]);
  }

  lemma Throughout3(p: Promise, c: Cell, a: Op, b: Op, d: Op)
    requires Holds(p, c) && Holds(p, CellOp(c, a)) && Holds(p, CellOp(CellOp(c, a), b))
    requires Holds(p, CellOp(CellOp(CellOp(c, a), b), d))
    ensures Throughout(p, c, [a, b, d])
  {
    hide Holds, CellOp;
    assert [a, b, d][1..] == [b, d];
    Throughout2(p, CellOp(c, a), b, d);
  }

  /** Effects on reports, metrics, claims and subscribers only. */
  predicate Inert(op: Op) {
    || op.UpsertTransaction? || op.UpsertDetail? || op.CreateIncident? || op.AddEscalation?
    || op.Publish? || op.RecordMatch? || op.RecordProcessed? || op.ClaimEvent? || op.TouchSources?
  }

  predicate SameFrame(c: Cell, d: Cell) {
    && c.window == d.window && c.sources == d.sources && c.checkpoint == d.checkpoint
    && c.deadline == d.deadline && c.popped == d.popped
  }

  lemma {:induction false} InertThroughout(p: Promise, c: Cell, ops: seq<Op>)
    requires Holds(p, c) && forall op <- ops :: Inert(op)
    ensures Throughout(p, c, ops) && SameFrame(CellApply(c, ops), c)
    decreases |ops|
  {
    if ops == [] {
    } else {
      assert ops[0] in ops;
      InertThroughout(p, CellOp(c, ops[0]), ops[1..]);
    }
  }

  lemma ReportInert(cfg: Config, w: Window, env: Env)
    ensures forall op <- [UpsertTransaction(w.tx, FinalRow(w, env))] + DetailOps(w.tx, BuildDetails(w)) +
                         VerdictOps(cfg, w, env) :: Inert(op)
  {
    hide BuildDetails, FinalRow, VerdictOps;
    DetailShape(w.tx, BuildDetails(w));
    VerdictShape(cfg, w, env);
  }

  lemma DegradeInert(cfg: Config, tx: TxId, w: Window, env: Env)
    ensures forall op <- [UpsertTransaction(tx, DegradedRow(w, env))] + DetailOps(tx, BuildDetails(w)) +
                         PersistIncidentOps(cfg, MissingIncident(tx, w), env.now) :: Inert(op)
  {
    hide BuildDetails, DegradedRow, MissingIncident;
    DetailShape(tx, BuildDetails(w));
  }

  lemma DuplicateInert(cfg: Config, d: Delivery)
    ensures forall op <- DuplicateOps(cfg, d) :: Inert(op)
  {}

  lemma MetricInert(up: bool)
    ensures forall op <- ProcessedMetric(up) :: Inert(op)
  {}

  lemma CleanupThroughout(p: Promise, c: Cell, tx: TxId)
    requires Holds(p, c)
    ensures Throughout(p, c, CleanupOps(tx)) && Holds(p, CellApply(c, CleanupOps(tx)))
  {
    var c1 := CellOp(c, RemoveWindow(tx));
    Throughout3(p, c1, DeleteWindow(tx), RemoveDeadline(tx), CleanupSources(tx));
    assert CleanupOps(tx)[1..] == [DeleteWindow(tx), RemoveDeadline(tx), CleanupSources(tx)];
    CleanupOnCell(c, tx);
  }

  lemma FinalizeThroughout(p: Promise, cfg: Config, c: Cell, w: Window, env: Env)
    requires Holds(p, c)
    ensures Throughout(p, c, FinalizeOps(cfg, w, env)) && Holds(p, CellApply(c, FinalizeOps(cfg, w, env)))
  {
    hide CellApply, Throughout, BuildDetails, FinalRow, VerdictOps, DetailOps, CleanupOps, CheckInvariants;
    var report := [UpsertTransaction(w.tx, FinalRow(w, env))] + DetailOps(w.tx, BuildDetails(w)) +
                  VerdictOps(cfg, w, env);
    ReportInert(cfg, w, env);
    InertThroughout(p, c, report);
    CleanupThroughout(p, CellApply(c, report), w.tx);
    ThroughoutConcat(p, c, report, CleanupOps(w.tx));
    CellConcat(c, report, CleanupOps(w.tx));
  }

  lemma DegradeThroughout(p: Promise, cfg: Config, c: Cell, tx: TxId, w: Window, env: Env)
    requires Holds(p, c)
    ensures Throughout(p, c, DegradeOps(cfg, tx, w, env))
  {
    hide CellApply, Throughout, BuildDetails, DegradedRow, DetailOps, CleanupOps, MissingIncident, PersistIncidentOps;
    var report := [UpsertTransaction(tx, DegradedRow(w, env))] + DetailOps(tx, BuildDetails(w)) +
                  PersistIncidentOps(cfg, MissingIncident(tx, w), env.now);
    DegradeInert(cfg, tx, w, env);
    InertThroughout(p, c, report);
    CleanupThroughout(p, CellApply(c, report), tx);
    ThroughoutConcat(p, c, report, CleanupOps(tx));
  }

  /** Where an event may be handled so that the promise survives each of its effects. */
  predicate Ready(p: Promise, c: Cell) {
    && Holds(p, c)
    && (p.CrashSafe? ==>
          && c.window == c.checkpoint
          && (c.window.None? ==> c.sources.None?)
          && (c.window.Some? ==> c.window.value.events != map[]
                                 && c.window.value.events.Keys == OrEmpty(c.sources)))
  }

  lemma OpenThroughout(p: Promise, cfg: Config, c: Cell, d: Delivery)
    requires Ready(p, c)
    ensures var c1 := WithSource(c, d.event.source);
            Throughout(p, c1, OpenOps(cfg, c.window, d))
  {
    hide CellApply, Throughout;
    var c1 := WithSource(c, d.event.source);
    var w := Joined(cfg, c.window, d);
    var enter := if c.window.None? then [SetWindow(w)] else [];
    var queue := if w.events == map[] then [AddDeadline(d.event.tx, w.deadline), Publish] else [];
    EmptyOnCell(c1);
    SetWindowOnCell(c1, w);
    var c2 := CellApply(c1, enter);
    assert Throughout(p, c1, enter) by { ThroughoutOne(p, c1, SetWindow(w)); }
    assert Throughout(p, c2, queue) by {
      ThroughoutOne(p, c2, Publish);
      if w.events == map[] { Throughout2(p, c2, AddDeadline(d.event.tx, w.deadline), Publish); }
    }
    ThroughoutConcat(p, c1, enter, queue);
  }

  lemma ThroughoutOne(p: Promise, c: Cell, a: Op)
    requires Holds(p, c)
    ensures Throughout(p, c, [])
    ensures Holds(p, CellOp(c, a)) ==> Throughout(p, c, [a])
  {
    hide Holds, CellOp;
    assert [a][1..] == [];
  }

  lemma ResultThroughout(p: Promise, cfg: Config, c: Cell, w: Window, env: Env)
    requires Holds(p, c) && c.window == Some(w) && w.events != map[]
    requires p.CrashSafe? ==> c.checkpoint == Some(w)
    ensures Throughout(p, c, ResultOps(cfg, w, env)) && Holds(p, CellApply(c, ResultOps(cfg, w, env)))
  {
    hide CellApply, Throughout, FinalizeOps;
    var t := Timed(w, env.elapsed);
    if IsComplete(w) {
      FinalizeThroughout(p, cfg, c, t, env);
    } else {
      Throughout3(p, c, Publish, SetWindow(t), SaveWindow(t));
      CellApply3(c, Publish, SetWindow(t), SaveWindow(t));
    }
  }

  lemma ArrivalThroughout(p: Promise, cfg: Config, c: Cell, d: Delivery)
    requires Ready(p, c)
    ensures Throughout(p, WithSource(c, d.event.source), ArrivalOps(cfg, c.window, d))
  {
    hide CellApply, Throughout, OpenOps, ResultOps, ProcessedMetric, IsComplete;
    var c1, w := WithSource(c, d.event.source), Extended(cfg, c.window, d);
    var first, second, third := OpenOps(cfg, c.window, d), [SetWindow(w), SaveWindow(w)], ResultOps(cfg, w, d.env);
    OpenThroughout(p, cfg, c, d);
    OpenOnCell(cfg, c1, d);
    var c2 := CellApply(c1, first);
    assert d.event.source in w.events;
    Throughout2(p, c2, SetWindow(w), SaveWindow(w));
    SaveOnCell(c2, w);
    var c3 := CellApply(c2, second);
    ResultThroughout(p, cfg, c3, w, d.env);
    MetricInert(d.env.processedUp);
    InertThroughout(p, CellApply(c3, third), ProcessedMetric(d.env.processedUp));
    CellConcat(c1, first, second);
    CellConcat(c1, first + second, third);
    ThroughoutConcat(p, c1, first, second);
    ThroughoutConcat(p, c1, first + second, third);
    ThroughoutConcat(p, c1, first + second + third, ProcessedMetric(d.env.processedUp));
  }

  lemma EventThroughout(p: Promise, cfg: Config, c: Cell, claimed: bool, d: Delivery)
    requires Ready(p, c)
    ensures Throughout(p, c, EventOps(cfg, claimed, Repeats(c, d.event), c.window, d))
  {
    hide CellApply, Throughout, DuplicateOps, ArrivalOps;
    var e := d.event;
    if claimed {
      NoEventOps(cfg, Repeats(c, e), c.window, d);
      ThroughoutOne(p, c, Publish);
    } else {
      var claim, source := [ClaimEvent(e.eventId)], [RegisterSource(e.tx, e.source), TouchSources(e.tx)];
      var rest := if Repeats(c, e) then DuplicateOps(cfg, d) else ArrivalOps(cfg, c.window, d);
      var c1 := WithSource(c, e.source);
      ThroughoutOne(p, c, ClaimEvent(e.eventId));
      ClaimOnCell(c, e.eventId);
      Throughout2(p, c, RegisterSource(e.tx, e.source), TouchSources(e.tx));
      CellApply2(c, RegisterSource(e.tx, e.source), TouchSources(e.tx));
      if Repeats(c, e) {
        DuplicateInert(cfg, d);
        InertThroughout(p, c1, DuplicateOps(cfg, d));
      } else {
        ArrivalThroughout(p, cfg, c, d);
      }
      ThroughoutConcat(p, c, source, rest);
      ThroughoutConcat(p, c, claim, source + rest);
    }
  }

  // ----- No stranded window -----

  lemma TimeoutNotStranded(cfg: Config, c: Cell, tx: TxId, env: Env, stop: Option<nat>)
    ensures Holds(NotStranded, CellApply(c, Performed(TimeoutOps(cfg, tx, c.window, env), stop)))
  {
    hide CellApply, Throughout, FinalizeOps, DegradeOps;
    var ops := TimeoutOps(cfg, tx, c.window, env);
    var done := Performed(ops, stop);
    if c.window.None? {
      assert done == [];
      EmptyOnCell(c);
    } else {
      var rest := if IsComplete(c.window.value) then FinalizeOps(cfg, c.window.value, env)
                  else DegradeOps(cfg, tx, c.window.value, env);
      assert ops == [RemoveWindow(tx)] + rest;
      assert |done| >= 1;
      var c1 := c.(window := None);
      RemoveOnCell(c, tx);
      FinalizeThroughout(NotStranded, cfg, c1, c.window.value, env);
      DegradeThroughout(NotStranded, cfg, c1, tx, c.window.value, env);
      ThroughoutPrefix(NotStranded, c1, rest, |done| - 1);
      assert done == [RemoveWindow(tx)] + rest[..|done| - 1];
      CellConcat(c, [RemoveWindow(tx)], rest[..|done| - 1]);
    }
  }

  lemma StepNotStranded(cfg: Config, c: Cell, claimed: bool, a: Action)
    requires Holds(NotStranded, c)
    ensures Holds(NotStranded, CellStep(cfg, c, claimed, a))
  {
    hide CellApply, Throughout, EventOps, TimeoutOps;
    match a
    case Deliver(d, stop) =>
      var ops := EventOps(cfg, claimed, Repeats(c, d.event), c.window, d);
      EventThroughout(NotStranded, cfg, c, claimed, d);
      ThroughoutPrefix(NotStranded, c, ops, |ops|);
      assert ops[..|ops|] == ops;
      if stop.Some? { ThroughoutPrefix(NotStranded, c, ops, StopIndex(ops, stop.value)); }
    case Timeout(tx, env, stop) =>
      if c.popped > 0 { TimeoutNotStranded(cfg, c.(popped := c.popped - 1), tx, env, stop); }
    case _ =>
  }

  ghost predicate NoneStranded(s: State) {
    Keyed(s) && forall tx: TxId :: Holds(NotStranded, CellOf(s, tx))
  }

  lemma {:induction false} RunNeverStrands(cfg: Config, s: State, actions: seq<Action>)
    requires NoneStranded(s)
    ensures NoneStranded(Run(cfg, s, actions))
    decreases |actions|
  {
    hide Step, CellOf, CellStep, Holds, Keyed;
    if actions == [] {
    } else {
      var a := actions[0];
      StepKeepsKeyed(cfg, s, a);
      forall tx: TxId ensures Holds(NotStranded, CellOf(Step(cfg, s, a), tx)) {
        StepOnCell(cfg, s, a, tx);
        assert Holds(NotStranded, CellOf(s, tx));
        StepNotStranded(cfg, CellOf(s, tx), AlreadyClaimed(s, a), a);
      }
      RunNeverStrands(cfg, Step(cfg, s, a), actions[1..]);
    }
  }

  /** Whatever store command failed in whatever call, a window in memory that holds an event
      has its deadline queued or taken out by a timer pass that has not handled it yet. */
  lemma NoStrandedWindow(cfg: Config, actions: seq<Action>)
    ensures var s := Run(cfg, INIT, actions);
            forall tx <- s.windows :: s.windows[tx].events != map[] ==> tx in s.redis.deadlines || tx in s.popped
  {
    hide Run;
    RunNeverStrands(cfg, INIT, actions);
    var s := Run(cfg, INIT, actions);
    forall tx | tx in s.windows && s.windows[tx].events != map[]
      ensures tx in s.redis.deadlines || tx in s.popped
    {
      hide IncidentsOf;
      assert Holds(NotStranded, CellOf(s, tx));
    }
  }

  /** So a complete window that is still there, because its finalisation failed, is finalised
      by its timeout: popping its deadline and handling it reports the batch verdict on its
      events and clears every trace of the window. */
  lemma TimeoutFinalises(cfg: Config, s: State, tx: TxId, env: Env)
    requires Keyed(s) && tx in s.windows && IsComplete(s.windows[tx])
    requires tx in s.redis.deadlines || tx in s.popped
    ensures var t := Run(cfg, s, [PopDeadline(tx), Timeout(tx, env, None)]);
            ReportedInBatch(CellOf(s, tx), CellOf(t, tx), tx, s.windows[tx].events)
  {
    hide Step, CellOf, CellStep, Keyed, AfterTimeout;
    var pop, handle := PopDeadline(tx), Timeout(tx, env, None);
    RunTwo(cfg, s, pop, handle);
    StepOnCell(cfg, s, pop, tx);
    StepKeepsKeyed(cfg, s, pop);
    var t := Step(cfg, s, pop);
    StepOnCell(cfg, t, handle, tx);
    PoppedCell(cfg, s, tx);
    TimeoutCell(cfg, CellOf(t, tx), tx, env);
    FinalizedReport(CellOf(s, tx), CellOf(t, tx).(popped := CellOf(t, tx).popped - 1), s.windows[tx], env);
  }

  lemma PoppedCell(cfg: Config, s: State, tx: TxId)
    requires Keyed(s) && tx in s.windows && (tx in s.redis.deadlines || tx in s.popped)
    ensures var c := CellStep(cfg, CellOf(s, tx), false, PopDeadline(tx));
            c.popped > 0 && c.window == Some(s.windows[tx]) && s.windows[tx].tx == tx
            && c.incidents == CellOf(s, tx).incidents
  {
    hide IncidentsOf;
  }

  lemma TimeoutCell(cfg: Config, c: Cell, tx: TxId, env: Env)
    requires c.popped > 0 && c.window.Some? && IsComplete(c.window.value)
    ensures CellStep(cfg, c, false, Timeout(tx, env, None)) ==
            Finalized(c.(popped := c.popped - 1), c.window.value, env)
  {
    hide CellApply, TimeoutOps, Finalized, Degraded;
    TimeoutEffectOnCell(cfg, c.(popped := c.popped - 1), tx, env);
  }

  lemma FinalizedReport(before: Cell, c: Cell, w: Window, env: Env)
    requires IsComplete(w) && c.incidents == before.incidents
    ensures ReportedInBatch(before, Finalized(c, w, env), w.tx, w.events)
  {
    hide BuildDetails, CheckInvariants, PutAll;
    SameEventsSameVerdict(w, Batch(w.tx, w.events));
    ThreeRows(c.details, w);
    ThreeRows(map[], Batch(w.tx, w.events));
  }

  // ----- Restart -----

  /** restore_from_redis: insert every window that SCAN returned, in that order. */
  function Restore(scan: seq<Window>): map<TxId, Window> {
    if scan == [] then map[]
    else
      var last := scan[|scan| - 1];
      Restore(scan[..|scan| - 1])[last.tx := last]
  }

  lemma {:induction false} RestoreHolds(scan: seq<Window>, target: map<TxId, Window>)
    requires forall w <- scan :: w.tx in target && target[w.tx] == w
    ensures Restore(scan).Keys == (set w | w in scan :: w.tx)
    ensures forall tx <- Restore(scan) :: tx in target && Restore(scan)[tx] == target[tx]
    decreases |scan|
  {
    if scan == [] {
    } else {
      var last := |scan| - 1;
      assert scan == scan[..last] + [scan[last]];
      RestoreHolds(scan[..last], target);
    }
  }

  /** SCAN may return keys in any order and more than once. */
  ghost predicate ScanOf(checkpoints: map<TxId, Window>, scan: seq<Window>) {
    forall w :: w in scan <==> w.tx in checkpoints && checkpoints[w.tx] == w
  }

  /** Between steps, a restart gets back exactly the windows that were in memory. */
  lemma RestoreIsExact(cfg: Config, s: State, scan: seq<Window>)
    requires Inv(cfg, s) && ScanOf(s.redis.checkpoints, scan)
    ensures Restore(scan) == s.windows
  {
    hide Inv, WellKeyed;
    RestoreHolds(scan, s.redis.checkpoints);
    InvMeaning(cfg, s);
    InvKeyed(cfg, s);
    forall tx | tx in s.windows ensures tx in Restore(scan) {
      assert s.windows[tx] in scan;
    }
  }

  /** The state after a restart: memory comes from the checkpoints, and ids that a timer pass
      had taken out are lost with the process. */
  function Restarted(s: State, scan: seq<Window>): State {
    s.(windows := Restore(scan), popped := multiset{}, poppedEscalations := multiset{})
  }

  /** A restart between steps keeps the joint invariant exactly when no open window's deadline
      is only in the hands of a timer pass. */
  lemma RestartKeepsInvIff(cfg: Config, s: State, scan: seq<Window>)
    requires Inv(cfg, s) && ScanOf(s.redis.checkpoints, scan)
    ensures Inv(cfg, Restarted(s, scan)) <==> forall tx <- s.windows :: tx in s.redis.deadlines
  {
    hide Restore, IncidentsOf, WellKeyed, IsComplete, Inv;
    RestoreIsExact(cfg, s, scan);
    InvKeyed(cfg, s);
    var t := Restarted(s, scan);
    if Inv(cfg, t) {
      forall tx | tx in s.windows ensures tx in s.redis.deadlines {
        CoherentTx(cfg, t, tx);
      }
    }
    if forall tx <- s.windows :: tx in s.redis.deadlines {
      forall tx: TxId ensures Coherent(cfg, tx, CellOf(t, tx)) {
        CoherentTx(cfg, s, tx);
      }
      assert Inv(cfg, t) by { InvFromCells(cfg, t); }
    }
  }

  lemma InvFromCells(cfg: Config, s: State)
    requires Keyed(s) && forall tx: TxId :: Coherent(cfg, tx, CellOf(s, tx))
    ensures Inv(cfg, s)
  {}

  /** A crash after any effect of handle_event, with earlier steps completed and no timer pass
      under way: every window that a restart restores has its deadline queued, and all of its
      sources are in the registered set. */
  lemma CrashDuringDelivery(cfg: Config, s: State, d: Delivery, k: nat)
    requires Inv(cfg, s) && s.popped == multiset{} && k <= |DeliverOps(cfg, s, d)|
    ensures var t := Apply(s, DeliverOps(cfg, s, d)[..k]);
            forall tx <- t.redis.checkpoints ::
              && tx in t.redis.deadlines && t.redis.deadlines[tx] == t.redis.checkpoints[tx].deadline
              && tx in t.redis.sources && t.redis.checkpoints[tx].events.Keys <= t.redis.sources[tx]
  {
    hide Inv, CellOf, DeliverOps, Apply, Holds;
    var t := Apply(s, DeliverOps(cfg, s, d)[..k]);
    forall tx | tx in t.redis.checkpoints
      ensures tx in t.redis.deadlines && t.redis.deadlines[tx] == t.redis.checkpoints[tx].deadline
      ensures tx in t.redis.sources && t.redis.checkpoints[tx].events.Keys <= t.redis.sources[tx]
    {
      CrashCell(cfg, s, d, k, tx);
      CrashMeaning(t, tx);
    }
  }

  lemma CrashMeaning(t: State, tx: TxId)
    requires Holds(CrashSafe, CellOf(t, tx)) && tx in t.redis.checkpoints
    ensures tx in t.redis.deadlines && t.redis.deadlines[tx] == t.redis.checkpoints[tx].deadline
    ensures tx in t.redis.sources && t.redis.checkpoints[tx].events.Keys <= t.redis.sources[tx]
  {
    hide IncidentsOf;
  }

  lemma CrashCell(cfg: Config, s: State, d: Delivery, k: nat, tx: TxId)
    requires Inv(cfg, s) && s.popped == multiset{} && k <= |DeliverOps(cfg, s, d)|
    ensures var t := Apply(s, DeliverOps(cfg, s, d)[..k]); Holds(CrashSafe, CellOf(t, tx))
  {
    hide Inv, Apply, CellApply, Throughout, EventOps, IncidentsOf, WellKeyed, IsComplete;
    CoherentTx(cfg, s, tx);
    InvKeyed(cfg, s);
    var c := CellOf(s, tx);
    assert Ready(CrashSafe, c);
    var ops := DeliverOps(cfg, s, d);
    PrefixOnCell(cfg, s, d, k, tx);
    if tx == d.event.tx {
      EventThroughout(CrashSafe, cfg, c, d.event.eventId in s.redis.claims, d);
      ThroughoutPrefix(CrashSafe, c, ops, k);
    }
  }

  lemma PrefixOnCell(cfg: Config, s: State, d: Delivery, k: nat, tx: TxId)
    requires Keyed(s) && k <= |DeliverOps(cfg, s, d)|
    ensures var done := DeliverOps(cfg, s, d)[..k];
            CellOf(Apply(s, done), tx) == if tx == d.event.tx then CellApply(CellOf(s, tx), done) else CellOf(s, tx)
  {
    hide IncidentsOf, NewEventOps, Own, ApplyOp;
    var ops, open, id := DeliverOps(cfg, s, d), Lookup(s.windows, d.event.tx), d.event.eventId;
    if k > 0 {
      var rest := NewEventOps(cfg, Registered(s, d.event), open, d);
      assert ops == [ClaimEvent(id)] + rest;
      var done := ops[..k];
      assert done[0] == ClaimEvent(id) && done[1..] == rest[..k - 1];
      EventOwn(cfg, Registered(s, d.event), open, d);
      OwnPrefix(rest, k - 1, d.event.tx);
      OpOnCell(s, ClaimEvent(id), tx);
      ApplyOnCell(ApplyOp(s, ClaimEvent(id)), done[1..], d.event.tx, tx);
    }
  }

  // ----- What a crash inside a timer pass costs -----

  /** An open window that no timer pass will ever see. */
  predicate Orphan(c: Cell, silent: Source) {
    && c.window.Some? && c.window.value.events != map[] && silent !in c.window.value.events
    && c.deadline.None? && c.popped == 0
  }

  lemma OrphanStep(cfg: Config, c: Cell, claimed: bool, a: Action, silent: Source)
    requires Orphan(c, silent) && Clean(a) && !(a.Deliver? && a.d.event.source == silent)
    ensures Orphan(CleanStep(cfg, c, claimed, a), silent)
  {
    hide Finalized, Degraded;
    if a.Deliver? {
      var w := Extended(cfg, c.window, a.d);
      CompleteMeansAllThree(w);
      assert silent !in w.events && a.d.event.source in w.events;
    }
  }

  ghost predicate Silent(actions: seq<Action>, tx: TxId, silent: Source) {
    forall a <- actions :: !(a.Deliver? && a.d.event.tx == tx && a.d.event.source == silent)
  }

  /** Such a window stays open, and unreported, for as long as one source stays silent. */
  lemma {:induction false} OrphanStaysOpen(cfg: Config, s: State, actions: seq<Action>, tx: TxId, silent: Source)
    requires Keyed(s) && Orphan(CellOf(s, tx), silent) && AllClean(actions) && Silent(actions, tx, silent)
    ensures Orphan(CellOf(Run(cfg, s, actions), tx), silent)
    decreases |actions|
  {
    hide Step, CellOf, CellStep, CleanStep, Orphan, Keyed;
    if actions == [] {
    } else {
      var a := actions[0];
      assert a in actions;
      StepOnCell(cfg, s, a, tx);
      StepKeepsKeyed(cfg, s, a);
      if ActionTx(a) == Some(tx) {
        CleanCellStep(cfg, CellOf(s, tx), AlreadyClaimed(s, a), a);
        OrphanStep(cfg, CellOf(s, tx), AlreadyClaimed(s, a), a, silent);
      }
      OrphanStaysOpen(cfg, Step(cfg, s, a), actions[1..], tx, silent);
    }
  }

  /** A first event, its deadline popped, a restart before the timeout is handled: the restored
      window is an orphan. */
  lemma PopThenRestartOrphans(cfg: Config, d: Delivery, scan: seq<Window>, silent: Source)
    requires d.event.source != silent && d.env.processedUp && d.env.matchUp
    requires ScanOf(Run(cfg, INIT, [Deliver(d, None), PopDeadline(d.event.tx)]).redis.checkpoints, scan)
    ensures var s := Run(cfg, INIT, [Deliver(d, None), PopDeadline(d.event.tx)]);
            Orphan(CellOf(Restarted(s, scan), d.event.tx), silent)
  {
    hide Run, CellOf, Step, CellStep, Inv, Restore, Orphan, AfterEvent;
    var tx, first, pop := d.event.tx, Deliver(d, None), PopDeadline(d.event.tx);
    RunTwo(cfg, INIT, first, pop);
    InitCoherent(cfg);
    StepKeepsInv(cfg, INIT, first);
    var s1 := Step(cfg, INIT, first);
    StepKeepsInv(cfg, s1, pop);
    InvKeyed(cfg, INIT);
    InvKeyed(cfg, s1);
    StepOnCell(cfg, INIT, first, tx);
    StepOnCell(cfg, s1, pop, tx);
    CleanCellStep(cfg, CellOf(INIT, tx), false, first);
    CleanCellStep(cfg, CellOf(s1, tx), false, pop);
    var s2 := Step(cfg, s1, pop);
    RestoreIsExact(cfg, s2, scan);
    EmptyCell(tx);
    FirstEventThenPop(cfg, CellOf(INIT, tx), d, silent);
    RestartedCell(s2, scan, tx);
  }

  lemma EmptyCell(tx: TxId)
    ensures CellOf(INIT, tx) == Cell(None, None, None, None, 0, None, map[], [])
  {}

  lemma FirstEventThenPop(cfg: Config, c: Cell, d: Delivery, silent: Source)
    requires c == Cell(None, None, None, None, 0, None, map[], []) && d.event.source != silent
    ensures var c1 := CleanStep(cfg, AfterEvent(cfg, c, d), false, PopDeadline(d.event.tx));
            Orphan(c1.(popped := 0), silent)
  {
    hide Finalized;
    var w := Extended(cfg, c.window, d);
    CompleteMeansAllThree(w);
    assert silent !in w.events && d.event.source in w.events;
  }

  lemma RestartedCell(s: State, scan: seq<Window>, tx: TxId)
    requires Restore(scan) == s.windows
    ensures CellOf(Restarted(s, scan), tx) == CellOf(s, tx).(popped := 0)
  {
    hide IncidentsOf;
  }

  // ----- What a failed pop costs -----

  /** A pop that fails half-way has removed some deadlines and handed none of them on. */
  function PopLost(s: State, lost: set<TxId>): State {
    s.(redis := s.redis.(deadlines := s.redis.deadlines - lost))
  }

  /** Such a pop leaves a window without a deadline, queued or popped, exactly if it removed the
      window's deadline and no earlier pop of that id is still to be handled. Then OrphanStaysOpen
      applies, for any source that the window still misses. */
  lemma LostPopOrphansIff(cfg: Config, s: State, lost: set<TxId>, tx: TxId, silent: Source)
    requires Inv(cfg, s) && lost <= s.redis.deadlines.Keys && tx in s.windows
    requires silent !in s.windows[tx].events
    ensures Keyed(PopLost(s, lost))
    ensures Orphan(CellOf(PopLost(s, lost), tx), silent) <==> tx in lost && tx !in s.popped
  {
    hide Inv, IncidentsOf, WellKeyed, IsComplete;
    InvKeyed(cfg, s);
    CoherentTx(cfg, s, tx);
  }
}
