/** Every claimed event is accounted for, using only what the stores themselves record. */
module Conservation {
  import opened Wrappers
  import opened Model
  import opened Store
  import opened Matcher
  import opened Cells
  import opened Coherence
  import opened Streaming

  // ----- Meters over effects -----

  datatype Meter = Accounted | Processed

  /** Events that an incident accounts for: a duplicate for itself, a missing-source incident
      for the events its window held. */
  function Covers(i: Incident): nat {
    if i.kind == Duplicate then 1
    else if i.kind == MissingSource && |i.named| <= EXPECTED_SOURCES then EXPECTED_SOURCES - |i.named|
    else 0
  }

  function CoveredBy(rows: seq<IncidentRow>): nat {
    if rows == [] then 0 else CoveredBy(rows[..|rows| - 1]) + Covers(rows[|rows| - 1].incident)
  }

  function Reading(m: Meter, s: State): int {
    match m
    case Accounted => CoveredBy(s.pg.incidents) + EXPECTED_SOURCES * (s.redis.matched + s.redis.mismatched)
    case Processed => s.redis.processed
  }

  function Weight(m: Meter, op: Op): int {
    match m
    case Accounted =>
      (match op case CreateIncident(i) => Covers(i) case RecordMatch(_) => EXPECTED_SOURCES case _ => 0)
    case Processed => if op.RecordProcessed? then 1 else 0
  }

  function Tally(m: Meter, ops: seq<Op>): int
    decreases |ops|
  {
    if ops == [] then 0 else Weight(m, ops[0]) + Tally(m, ops[1..])
  }

  lemma OpReading(m: Meter, s: State, op: Op)
    ensures Reading(m, ApplyOp(s, op)) == Reading(m, s) + Weight(m, op)
  {
    if op.CreateIncident? {
      var rows := s.pg.incidents;
      assert (rows + [NewIncidentRow(op.incident)])[..|rows|] == rows;
    }
  }

  lemma {:induction false} ApplyReading(m: Meter, s: State, ops: seq<Op>)
    ensures Reading(m, Apply(s, ops)) == Reading(m, s) + Tally(m, ops)
    decreases |ops|
  {
    hide Reading, Weight, ApplyOp;
    if ops == [] {
    } else {
      OpReading(m, s, ops[0]);
      ApplyReading(m, ApplyOp(s, ops[0]), ops[1..]);
    }
  }

  lemma {:induction false} TallyConcat(m: Meter, a: seq<Op>, b: seq<Op>)
    ensures Tally(m, a + b) == Tally(m, a) + Tally(m, b)
    decreases |a|
  {
    hide Weight;
    if a == [] {
      assert a + b == b;
    } else {
      assert (a + b)[1..] == a[1..] + b;
      TallyConcat(m, a[1..], b);
    }
  }

  lemma {:induction false} TallyZero(m: Meter, ops: seq<Op>)
    requires forall op <- ops :: Weight(m, op) == 0
    ensures Tally(m, ops) == 0
    decreases |ops|
  {
    hide Weight;
    if ops == [] {
    } else {
      assert ops[0] in ops;
      TallyZero(m, ops[1..]);
    }
  }

  lemma TallySmall(m: Meter, a: Op, b: Op, c: Op)
    ensures Tally(m, []) == 0
    ensures Tally(m, [a]) == Weight(m, a)
    ensures Tally(m, [a, b]) == Weight(m, a) + Weight(m, b)
    ensures Tally(m, [a, b, c]) == Weight(m, a) + Weight(m, b) + Weight(m, c)
  {
    hide Weight;
    assert [a][1..] == [] && [a, b][1..] == [b] && [b][1..] == [] && [a, b, c][1..] == [b, c];
    assert [b, c][1..] == [c] && [c][1..] == [] && [b][1..] == [];
    assert Tally(m, []) == 0;
    assert Tally(m, [b]) == Weight(m, b) && Tally(m, [c]) == Weight(m, c);
    assert Tally(m, [b, c]) == Weight(m, b) + Weight(m, c);
  }

  lemma PersistTally(m: Meter, cfg: Config, i: Incident, now: int)
    ensures Tally(m, PersistIncidentOps(cfg, i, now)) == if m.Accounted? then Covers(i) else 0
  {
    var create, later := CreateIncident(i), AddEscalation(now + cfg.escalationMs);
    TallySmall(m, create, later, Publish);
    TallySmall(m, create, Publish, Publish);
    if i.severity == 1 {
      assert PersistIncidentOps(cfg, i, now) == [create, later, Publish];
    } else {
      assert PersistIncidentOps(cfg, i, now) == [create, Publish];
    }
  }

  lemma VerdictTally(m: Meter, cfg: Config, w: Window, env: Env)
    requires IsComplete(w) && env.matchUp
    ensures Tally(m, VerdictOps(cfg, w, env)) == if m.Accounted? then EXPECTED_SOURCES else 0
  {
    hide Tally, CheckInvariants;
    Findings(w);
    var metric := RecordMatch(CheckInvariants(w).Matched?);
    match CheckInvariants(w)
    case Matched =>
      TallySmall(m, metric, Publish, Publish);
      assert VerdictOps(cfg, w, env) == [metric, Publish];
    case Mismatched(incidents) =>
      var persist := PersistAllOps(cfg, incidents, env.now);
      PersistAllShape(cfg, incidents, env.now);
      TallyZero(m, persist);
      TallySmall(m, metric, Publish, Publish);
      TallyConcat(m, [metric], persist);
  }

  lemma CleanupTally(m: Meter, tx: TxId)
    ensures Tally(m, CleanupOps(tx)) == 0
  {
    TallyZero(m, CleanupOps(tx));
  }

  lemma UpsertTally(m: Meter, tx: TxId, row: TxRow, details: seq<Detail>)
    ensures Tally(m, [UpsertTransaction(tx, row)] + DetailOps(tx, details)) == 0
  {
    DetailShape(tx, details);
    TallyZero(m, [UpsertTransaction(tx, row)] + DetailOps(tx, details));
  }

  lemma FinalizeTally(m: Meter, cfg: Config, w: Window, env: Env)
    requires IsComplete(w) && env.matchUp
    ensures Tally(m, FinalizeOps(cfg, w, env)) == if m.Accounted? then EXPECTED_SOURCES else 0
  {
    hide Tally, BuildDetails, FinalRow, DetailOps, VerdictOps, CleanupOps, CheckInvariants;
    var upsert := [UpsertTransaction(w.tx, FinalRow(w, env))] + DetailOps(w.tx, BuildDetails(w));
    UpsertTally(m, w.tx, FinalRow(w, env), BuildDetails(w));
    VerdictTally(m, cfg, w, env);
    CleanupTally(m, w.tx);
    TallyConcat(m, upsert, VerdictOps(cfg, w, env));
    TallyConcat(m, upsert + VerdictOps(cfg, w, env), CleanupOps(w.tx));
  }

  lemma DegradeTally(m: Meter, cfg: Config, tx: TxId, w: Window, env: Env)
    ensures Tally(m, DegradeOps(cfg, tx, w, env)) == if m.Accounted? then |w.events| else 0
  {
    hide Tally, BuildDetails, DegradedRow, DetailOps, CleanupOps, PersistIncidentOps;
    CompleteMeansAllThree(w);
    var upsert := [UpsertTransaction(tx, DegradedRow(w, env))] + DetailOps(tx, BuildDetails(w));
    var incident := PersistIncidentOps(cfg, MissingIncident(tx, w), env.now);
    UpsertTally(m, tx, DegradedRow(w, env), BuildDetails(w));
    PersistTally(m, cfg, MissingIncident(tx, w), env.now);
    CleanupTally(m, tx);
    TallyConcat(m, upsert, incident);
    TallyConcat(m, upsert + incident, CleanupOps(tx));
  }

  lemma DuplicateTally(m: Meter, cfg: Config, d: Delivery)
    requires d.env.processedUp
    ensures Tally(m, DuplicateOps(cfg, d)) == 1
  {
    hide Tally, PersistIncidentOps;
    var upsert := [UpsertTransaction(d.event.tx, PendingRow(d.event))];
    var incident := PersistIncidentOps(cfg, DuplicateIncident(d.event), d.env.now);
    TallySmall(m, upsert[0], Publish, Publish);
    PersistTally(m, cfg, DuplicateIncident(d.event), d.env.now);
    TallySmall(m, RecordProcessed, Publish, Publish);
    TallyConcat(m, upsert, incident);
    TallyConcat(m, upsert + incident, [RecordProcessed]);
  }

  lemma ArrivalTally(m: Meter, cfg: Config, open: Option<Window>, d: Delivery)
    requires d.env.processedUp && d.env.matchUp
    ensures Tally(m, ArrivalOps(cfg, open, d)) ==
            if m.Processed? then 1 else if IsComplete(Extended(cfg, open, d)) then EXPECTED_SOURCES else 0
  {
    hide Tally, FinalizeOps, IsComplete, Joined;
    var w := Extended(cfg, open, d);
    var first, second, third := OpenOps(cfg, open, d), [SetWindow(w), SaveWindow(w)], ResultOps(cfg, w, d.env);
    TallyZero(m, first);
    TallyZero(m, second);
    TimedComplete(w, d.env.elapsed);
    if IsComplete(w) {
      FinalizeTally(m, cfg, Timed(w, d.env.elapsed), d.env);
    } else {
      TallyZero(m, third);
    }
    TallySmall(m, RecordProcessed, Publish, Publish);
    TallyConcat(m, first, second);
    TallyConcat(m, first + second, third);
    TallyConcat(m, first + second + third, [RecordProcessed]);
  }

  lemma EventTally(m: Meter, cfg: Config, registered: bool, open: Option<Window>, d: Delivery)
    requires d.env.processedUp && d.env.matchUp
    ensures Tally(m, EventOps(cfg, false, registered, open, d)) ==
            if m.Processed? || registered then 1
            else if IsComplete(Extended(cfg, open, d)) then EXPECTED_SOURCES else 0
  {
    hide Tally, DuplicateOps, ArrivalOps, IsComplete, Extended;
    var e := d.event;
    var claim, source := [ClaimEvent(e.eventId)], [RegisterSource(e.tx, e.source), TouchSources(e.tx)];
    var rest := if registered then DuplicateOps(cfg, d) else ArrivalOps(cfg, open, d);
    TallyZero(m, claim);
    TallyZero(m, source);
    if registered { DuplicateTally(m, cfg, d); } else { ArrivalTally(m, cfg, open, d); }
    TallyConcat(m, source, rest);
    TallyConcat(m, claim, source + rest);
  }

  // ----- Events held in windows -----

  function Held(windows: map<TxId, Window>): set<(TxId, Source)> {
    set tx, src | tx in windows && src in windows[tx].events :: (tx, src)
  }

  function Count(open: Option<Window>): nat {
    if open.Some? then |open.value.events| else 0
  }

  lemma {:induction false} PairsCount(tx: TxId, keys: set<Source>)
    ensures |set src | src in keys :: (tx, src)| == |keys|
    decreases |keys|
  {
    if keys != {} {
      var k :| k in keys;
      PairsCount(tx, keys - {k});
      assert (set src | src in keys :: (tx, src)) == (set src | src in keys - {k} :: (tx, src)) + {(tx, k)};
    }
  }

  lemma HeldSplit(windows: map<TxId, Window>, tx: TxId)
    ensures |Held(windows)| == |Held(windows - {tx})| + Count(Lookup(windows, tx))
  {
    if tx in windows {
      var keys := windows[tx].events.Keys;
      var pairs := set src | src in keys :: (tx, src);
      PairsCount(tx, keys);
      assert Held(windows) == Held(windows - {tx}) + pairs;
      assert Held(windows - {tx}) !! pairs;
      assert |keys| == |windows[tx].events|;
    } else {
      assert windows - {tx} == windows;
    }
  }

  lemma HeldChange(a: map<TxId, Window>, b: map<TxId, Window>, tx: TxId)
    requires forall t: TxId :: t != tx ==> Lookup(a, t) == Lookup(b, t)
    ensures |Held(b)| - |Held(a)| == Count(Lookup(b, tx)) - Count(Lookup(a, tx))
  {
    HeldSplit(a, tx);
    HeldSplit(b, tx);
    assert a - {tx} == b - {tx} by {
      forall t | t in a - {tx} ensures t in b - {tx} && a[t] == b[t] { assert Lookup(a, t) == Lookup(b, t); }
      forall t | t in b - {tx} ensures t in a - {tx} { assert Lookup(a, t) == Lookup(b, t); }
    }
  }

  lemma {:induction false} OneEachAtLeast(windows: map<TxId, Window>)
    requires forall tx <- windows :: windows[tx].events != map[]
    ensures |windows| <= |Held(windows)|
    decreases |windows|
  {
    if windows != map[] {
      var tx :| tx in windows;
      var rest := windows - {tx};
      assert windows.Keys == rest.Keys + {tx};
      assert |windows.Keys| == |windows| && |rest.Keys| == |rest|;
      OneEachAtLeast(rest);
      HeldSplit(windows, tx);
      NonEmpty(windows[tx].events);
    }
  }

  // ----- Conservation -----

  ghost predicate Balanced(s: State) {
    && |s.redis.claims| == Reading(Accounted, s) + |Held(s.windows)|
    && s.redis.processed == |s.redis.claims|
  }

  lemma {:induction false} CoveredAfterUpdate(rows: seq<IncidentRow>, id: nat, row: IncidentRow)
    requires id < |rows| && row.incident == rows[id].incident
    ensures CoveredBy(rows[id := row]) == CoveredBy(rows)
    decreases |rows|
  {
    var last := |rows| - 1;
    if id == last {
      assert rows[id := row][..last] == rows[..last];
    } else {
      assert rows[id := row][..last] == rows[..last][id := row];
      CoveredAfterUpdate(rows[..last], id, row);
    }
  }

  lemma DeliverReading(m: Meter, cfg: Config, s: State, d: Delivery)
    requires Clean(Deliver(d, None))
    ensures Reading(m, Step(cfg, s, Deliver(d, None))) == Reading(m, s) +
            if d.event.eventId in s.redis.claims then 0
            else if m.Processed? || Registered(s, d.event) then 1
            else if IsComplete(Extended(cfg, Lookup(s.windows, d.event.tx), d)) then EXPECTED_SOURCES else 0
  {
    hide Reading, EventOps, Tally, Extended, IsComplete;
    ApplyReading(m, s, DeliverOps(cfg, s, d));
    if d.event.eventId in s.redis.claims {
      NoEventOps(cfg, Registered(s, d.event), Lookup(s.windows, d.event.tx), d);
      TallySmall(m, Publish, Publish, Publish);
    } else {
      EventTally(m, cfg, Registered(s, d.event), Lookup(s.windows, d.event.tx), d);
    }
  }

  lemma TimeoutReading(m: Meter, cfg: Config, s: State, tx: TxId, env: Env)
    requires Clean(Timeout(tx, env, None)) && tx in s.popped
    requires tx in s.windows ==> !IsComplete(s.windows[tx])
    ensures Reading(m, Step(cfg, s, Timeout(tx, env, None))) == Reading(m, s) +
            if m.Accounted? then Count(Lookup(s.windows, tx)) else 0
  {
    hide DegradeOps, FinalizeOps, Tally, IsComplete, CoveredBy, Apply;
    var ops, t := TimeoutOps(cfg, tx, Lookup(s.windows, tx), env), s.(popped := s.popped - multiset{tx});
    ApplyReading(m, t, ops);
    TallySmall(m, RemoveWindow(tx), Publish, Publish);
    if tx in s.windows {
      DegradeTally(m, cfg, tx, s.windows[tx], env);
      TallyConcat(m, [RemoveWindow(tx)], DegradeOps(cfg, tx, s.windows[tx], env));
    }
  }

  lemma RowReading(m: Meter, s: State, id: IncidentId, row: IncidentRow)
    requires id < |s.pg.incidents| && row.incident == s.pg.incidents[id].incident
    ensures Reading(m, WithRow(s, id, row)) == Reading(m, s)
    ensures WithRow(s, id, row).windows == s.windows && WithRow(s, id, row).redis == s.redis
  {
    CoveredAfterUpdate(s.pg.incidents, id, row);
  }

  lemma EscalateReading(m: Meter, s: State, id: IncidentId, now: int, up: bool)
    ensures var t := EscalateStep(s, id, now, up);
            Reading(m, t) == Reading(m, s) && t.windows == s.windows && t.redis == s.redis
  {
    hide CoveredBy, WithRow;
    if id < |s.pg.incidents| {
      RowReading(m, s.(poppedEscalations := s.poppedEscalations - multiset{id}), id,
                 EscalatedRow(s.pg.incidents[id], now));
    }
  }

  lemma LifecycleReading(m: Meter, cfg: Config, s: State, a: Action)
    requires ActionTx(a).None? || a.PopDeadline?
    ensures Reading(m, Step(cfg, s, a)) == Reading(m, s)
    ensures Step(cfg, s, a).windows == s.windows && Step(cfg, s, a).redis.claims == s.redis.claims
  {
    hide CoveredBy, WithRow, Apply, DeliverOps, TimeoutStep, EscalateStep, Performed;
    match a
    case Escalate(id, now, up) => EscalateReading(m, s, id, now, up);
    case Acknowledge(id, now) =>
      if id < |s.pg.incidents| { RowReading(m, s, id, AcknowledgedRow(s.pg.incidents[id], now)); }
    case Resolve(id, now) =>
      if id < |s.pg.incidents| { RowReading(m, s, id, ResolvedRow(s.pg.incidents[id], now)); }
    case _ =>
  }

  lemma HeldStep(cfg: Config, s: State, a: Action, tx: TxId)
    requires Inv(cfg, s) && Clean(a) && ActionTx(a) == Some(tx)
    ensures |Held(Step(cfg, s, a).windows)| - |Held(s.windows)| ==
            Count(CleanStep(cfg, CellOf(s, tx), AlreadyClaimed(s, a), a).window) - Count(CellOf(s, tx).window)
  {
    hide Step, CellStep, CleanStep, CellOf, Held, Count, Inv;
    InvKeyed(cfg, s);
    var t := Step(cfg, s, a);
    forall u: TxId | u != tx ensures Lookup(s.windows, u) == Lookup(t.windows, u) {
      StepOnCell(cfg, s, a, u);
      CellWindows(s, u);
      CellWindows(t, u);
    }
    HeldChange(s.windows, t.windows, tx);
    StepOnCell(cfg, s, a, tx);
    CleanCellStep(cfg, CellOf(s, tx), AlreadyClaimed(s, a), a);
    CellWindows(s, tx);
    CellWindows(t, tx);
  }

  /** How many events an unclaimed delivery leaves in its window. */
  lemma EventCount(cfg: Config, tx: TxId, c: Cell, d: Delivery)
    requires Coherent(cfg, tx, c)
    ensures Count(AfterEvent(cfg, c, d).window) ==
            if Repeats(c, d.event) then Count(c.window)
            else if IsComplete(Extended(cfg, c.window, d)) then 0
            else Count(c.window) + 1
    ensures !Repeats(c, d.event) && IsComplete(Extended(cfg, c.window, d)) ==> Count(c.window) == EXPECTED_SOURCES - 1
  {
    hide WellKeyed, IsComplete, Extended, Reported, Upserted, FinalRow;
    if !Repeats(c, d.event) {
      ExtendedCount(cfg, c.window, d);
      var w := Extended(cfg, c.window, d);
      assert IsComplete(w) <==> |w.events| >= EXPECTED_SOURCES by { CompleteCount(w); }
      if c.window.Some? { CompleteCount(c.window.value); }
    }
  }

  lemma CompleteCount(w: Window)
    ensures IsComplete(w) <==> |w.events| >= EXPECTED_SOURCES
  {}

  lemma ExtendedCount(cfg: Config, open: Option<Window>, d: Delivery)
    requires open.Some? ==> d.event.source !in open.value.events
    ensures |Extended(cfg, open, d).events| == Count(open) + 1
  {
    var before, w := Joined(cfg, open, d).events, Extended(cfg, open, d);
    assert w.events.Keys == before.Keys + {d.event.source};
    assert |w.events.Keys| == |w.events| && |before.Keys| == |before|;
  }

  lemma StepKeepsBalance(cfg: Config, s: State, a: Action)
    requires Inv(cfg, s) && Clean(a) && Balanced(s)
    ensures Balanced(Step(cfg, s, a))
  {
    hide Step, CellOf, Inv, Held, AfterEvent, Coherent, IsComplete, Extended;
    InvKeyed(cfg, s);
    match a
    case Deliver(d, _) =>
      var tx, id := d.event.tx, d.event.eventId;
      StepOnCell(cfg, s, a, tx);
      CoherentTx(cfg, s, tx);
      HeldStep(cfg, s, a, tx);
      EventCount(cfg, tx, CellOf(s, tx), d);
      DeliverReading(Accounted, cfg, s, d);
      DeliverReading(Processed, cfg, s, d);
      CellReads(s, d.event);
      if id in s.redis.claims { assert s.redis.claims + {id} == s.redis.claims; }
    case Timeout(tx, env, _) =>
      StepOnCell(cfg, s, a, tx);
      CoherentTx(cfg, s, tx);
      HeldStep(cfg, s, a, tx);
      CellReads2(s, tx);
      if tx in s.popped {
        TimeoutReading(Accounted, cfg, s, tx, env);
        TimeoutReading(Processed, cfg, s, tx, env);
        TimeoutCount(cfg, CellOf(s, tx), tx, env);
      } else {
        assert Step(cfg, s, a) == s by { NotPopped(cfg, s, tx, env); }
      }
    case _ =>
      LifecycleReading(Accounted, cfg, s, a);
      LifecycleReading(Processed, cfg, s, a);
  }

  lemma NotPopped(cfg: Config, s: State, tx: TxId, env: Env)
    requires tx !in s.popped
    ensures Step(cfg, s, Timeout(tx, env, None)) == s
  {}

  lemma CellReads(s: State, e: PaymentEvent)
    ensures Repeats(CellOf(s, e.tx), e) == Registered(s, e)
    ensures CellOf(s, e.tx).window == Lookup(s.windows, e.tx)
  {}

  lemma CellReads2(s: State, tx: TxId)
    ensures CellOf(s, tx).window == Lookup(s.windows, tx) && CellOf(s, tx).popped == s.popped[tx]
  {}

  lemma TimeoutCount(cfg: Config, c: Cell, tx: TxId, env: Env)
    requires c.popped > 0
    ensures CleanStep(cfg, c, false, Timeout(tx, env, None)).window.None?
  {}

  lemma {:induction false} RunKeepsBalance(cfg: Config, s: State, actions: seq<Action>)
    requires Inv(cfg, s) && AllClean(actions) && Balanced(s)
    ensures Inv(cfg, Run(cfg, s, actions)) && Balanced(Run(cfg, s, actions))
    decreases |actions|
  {
    hide Inv, Step, Balanced;
    if actions == [] {
    } else {
      assert actions[0] in actions;
      StepKeepsInv(cfg, s, actions[0]);
      StepKeepsBalance(cfg, s, actions[0]);
      RunKeepsBalance(cfg, Step(cfg, s, actions[0]), actions[1..]);
    }
  }

  /** After every run without store failures: claimed events = duplicate incidents + events that
      missing-source incidents account for + 3 x (matched + mismatched closes) + events in open
      windows; and the processed counter counts the claimed events. */
  lemma EventsAreConserved(cfg: Config, actions: seq<Action>)
    requires AllClean(actions)
    ensures var s := Run(cfg, INIT, actions);
            && |s.redis.claims| == CoveredBy(s.pg.incidents) + |Held(s.windows)| +
                                   EXPECTED_SOURCES * (s.redis.matched + s.redis.mismatched)
            && s.redis.processed == |s.redis.claims|
  {
    hide Run;
    InitCoherent(cfg);
    RunKeepsBalance(cfg, INIT, actions);
  }

  /** get_matcher_stats: "active_windows". */
  function ActiveWindowsStat(r: Redis): nat {
    var n := r.processed - r.matched - r.mismatched;
    if n < 0 then 0 else n
  }

  /** That statistic is not the number of open windows. It is right exactly when every claimed
      event opened a window of its own that is still open. */
  lemma ActiveWindowsStatIff(cfg: Config, actions: seq<Action>)
    requires AllClean(actions)
    ensures var s := Run(cfg, INIT, actions);
            ActiveWindowsStat(s.redis) == |s.windows| <==> |s.redis.claims| == |s.windows|
  {
    hide Run, Held, CoveredBy, Inv, Balanced;
    InitCoherent(cfg);
    assert Balanced(INIT) by { InitBalanced(); }
    RunKeepsBalance(cfg, INIT, actions);
    EventsAreConserved(cfg, actions);
    var s := Run(cfg, INIT, actions);
    InvMeaning(cfg, s);
    forall tx | tx in s.windows ensures s.windows[tx].events != map[] {
      assert |s.windows[tx].events| >= 1;
    }
    OneEachAtLeast(s.windows);
  }

  /** For example: two sources of one transaction have reported. The statistic is 2, and there is
      one window. */
  lemma StatCountsEvents(cfg: Config, d: Delivery, e: Delivery)
    requires Clean(Deliver(d, None)) && Clean(Deliver(e, None))
    requires d.event.tx == e.event.tx && d.event.eventId != e.event.eventId
    requires d.event.source == Merchant && e.event.source == Gateway
    ensures var s := Run(cfg, INIT, [Deliver(d, None), Deliver(e, None)]);
            ActiveWindowsStat(s.redis) == 2 && |s.windows| == 1
  {
    hide Run, Step, CellOf, Inv, CellStep, CoveredBy, Held;
    var tx, a, b := d.event.tx, Deliver(d, None), Deliver(e, None);
    var x0 := Session({}, map[]);
    var x1 := Listen(x0, a, tx);
    var x2 := Listen(x1, b, tx);
    InitCoherent(cfg);
    assert Follows(INIT, tx, x0) by { FollowsAtOpen(INIT, tx); }
    assert x1.firsts.Keys == {Merchant} && |x1.firsts.Keys| == |x1.firsts|;
    assert x2.firsts.Keys == {Merchant, Gateway} && |x2.firsts.Keys| == |x2.firsts|;
    FirstArrival(cfg, INIT, a, tx, x0);
    FirstArrival(cfg, Step(cfg, INIT, a), b, tx, x1);
    RunTwo(cfg, INIT, a, b);
    var s1, s := Step(cfg, INIT, a), Run(cfg, INIT, [a, b]);
    assert s.redis.claims == {d.event.eventId, e.event.eventId};
    EventsAreConserved(cfg, [a, b]);
    CellWindows(s, tx);
    forall u: TxId | u != tx ensures u !in s.windows {
      InvKeyed(cfg, INIT);
      InvKeyed(cfg, s1);
      StepOnCell(cfg, INIT, a, u);
      StepOnCell(cfg, s1, b, u);
      CellWindows(INIT, u);
      CellWindows(s, u);
    }
    assert s.windows.Keys == {tx} && |s.windows.Keys| == |s.windows|;
  }

  lemma InitBalanced()
    ensures Balanced(INIT)
  {
    assert Held(map[]) == {};
  }
}
