/** The joint invariant of windows, source sets, checkpoints, deadlines and rows, over every
    run in which no store command fails. */
module Coherence {
  import opened Wrappers
  import opened Model
  import opened Store
  import opened Matcher
  import opened Cells

  // ----- What a completed call does to its transaction's cell -----

  lemma {:induction false} CellConcat(c: Cell, a: seq<Op>, b: seq<Op>)
    ensures CellApply(c, a + b) == CellApply(CellApply(c, a), b)
    decreases |a|
  {
    hide CellOp;
    if a == [] {
      assert a + b == b;
    } else {
      assert (a + b)[1..] == a[1..] + b;
      CellConcat(CellOp(c, a[0]), a[1..], b);
    }
  }

  lemma CellApply2(c: Cell, a: Op, b: Op)
    ensures CellApply(c, [a, b]) == CellOp(CellOp(c, a), b)
  {
    hide CellOp;
    assert [a, b][1..] == [b] && [b][1..] == [];
    assert CellApply(CellOp(c, a), [b]) == CellApply(CellOp(CellOp(c, a), b), []);
  }

  lemma CellApply3(c: Cell, a: Op, b: Op, d: Op)
    ensures CellApply(c, [a, b, d]) == CellOp(CellOp(CellOp(c, a), b), d)
  {
    hide CellOp;
    assert [a, b, d][1..] == [b, d];
    CellApply2(CellOp(c, a), b, d);
  }

  function PutAll(rows: map<Source, Detail>, details: seq<Detail>): map<Source, Detail>
    decreases |details|
  {
    if details == [] then rows else PutAll(rows[details[0].source := details[0]], details[1..])
  }

  lemma {:induction false} DetailsOnCell(c: Cell, tx: TxId, details: seq<Detail>)
    ensures CellApply(c, DetailOps(tx, details)) == c.(details := PutAll(c.details, details))
    decreases |details|
  {
    if details == [] {
    } else {
      var op := UpsertDetail(tx, details[0]);
      assert DetailOps(tx, details)[1..] == DetailOps(tx, details[1..]);
      DetailsOnCell(CellOp(c, op), tx, details[1..]);
    }
  }

  lemma PersistOneOnCell(cfg: Config, c: Cell, incident: Incident, now: int)
    ensures CellApply(c, PersistIncidentOps(cfg, incident, now)) == c.(incidents := c.incidents + [incident])
  {
    var create, later := CreateIncident(incident), AddEscalation(now + cfg.escalationMs);
    if incident.severity == 1 {
      assert PersistIncidentOps(cfg, incident, now) == [create, later, Publish];
      CellApply3(c, create, later, Publish);
    } else {
      assert PersistIncidentOps(cfg, incident, now) == [create, Publish];
      CellApply2(c, create, Publish);
    }
  }

  lemma {:induction false} PersistAllOnCell(cfg: Config, c: Cell, incidents: seq<Incident>, now: int)
    ensures CellApply(c, PersistAllOps(cfg, incidents, now)) == c.(incidents := c.incidents + incidents)
    decreases |incidents|
  {
    hide PersistIncidentOps, CellApply;
    if incidents == [] {
      assert CellApply(c, []) == c by { EmptyOnCell(c); }
      assert c.incidents + [] == c.incidents;
    } else {
      var first := PersistIncidentOps(cfg, incidents[0], now);
      CellConcat(c, first, PersistAllOps(cfg, incidents[1..], now));
      PersistOneOnCell(cfg, c, incidents[0], now);
      var d := c.(incidents := c.incidents + [incidents[0]]);
      PersistAllOnCell(cfg, d, incidents[1..], now);
      assert c.incidents + incidents == c.incidents + [incidents[0]] + incidents[1..];
    }
  }

  lemma EmptyOnCell(c: Cell)
    ensures CellApply(c, []) == c
  {}

  function IncidentsIn(verdict: Verdict): seq<Incident> {
    match verdict case Matched => [] case Mismatched(incidents) => incidents
  }

  lemma MetricOnCell(c: Cell, success: bool, up: bool)
    ensures CellApply(c, MatchMetric(success, up)) == c
    ensures CellApply(c, ProcessedMetric(up)) == c
    ensures CellApply(c, [Publish]) == c
  {}

  lemma VerdictOnCell(cfg: Config, c: Cell, w: Window, env: Env)
    ensures CellApply(c, VerdictOps(cfg, w, env)) ==
            c.(incidents := c.incidents + IncidentsIn(CheckInvariants(w)))
  {
    hide CheckInvariants, CellApply, MatchMetric, PersistAllOps;
    match CheckInvariants(w)
    case Matched =>
      CellConcat(c, MatchMetric(true, env.matchUp), [Publish]);
      MetricOnCell(c, true, env.matchUp);
    case Mismatched(incidents) =>
      CellConcat(c, MatchMetric(false, env.matchUp), PersistAllOps(cfg, incidents, env.now));
      MetricOnCell(c, false, env.matchUp);
      PersistAllOnCell(cfg, c, incidents, env.now);
  }

  function Closed(c: Cell): Cell {
    c.(window := None, checkpoint := None, deadline := None, sources := None)
  }

  lemma CleanupOnCell(c: Cell, tx: TxId)
    ensures CellApply(c, CleanupOps(tx)) == Closed(c)
  {
    assert CleanupOps(tx) == [RemoveWindow(tx)] + [DeleteWindow(tx), RemoveDeadline(tx), CleanupSources(tx)];
    CellConcat(c, [RemoveWindow(tx)], [DeleteWindow(tx), RemoveDeadline(tx), CleanupSources(tx)]);
    CellApply3(CellOp(c, RemoveWindow(tx)), DeleteWindow(tx), RemoveDeadline(tx), CleanupSources(tx));
  }

  /** Row, details and incidents written at a close; the rest of the cell is as before. */
  function Reported(c: Cell, row: TxRow, w: Window, incidents: seq<Incident>): Cell {
    c.(row := Some(Upserted(c.row, row)), details := PutAll(c.details, BuildDetails(w)),
       incidents := c.incidents + incidents)
  }

  function Finalized(c: Cell, w: Window, env: Env): Cell {
    Closed(Reported(c, FinalRow(w, env), w, IncidentsIn(CheckInvariants(w))))
  }

  function Degraded(c: Cell, tx: TxId, w: Window, env: Env): Cell {
    Closed(Reported(c, DegradedRow(w, env), w, [MissingIncident(tx, w)]))
  }

  lemma UpsertOnCell(c: Cell, tx: TxId, row: TxRow)
    ensures CellApply(c, [UpsertTransaction(tx, row)]) == c.(row := Some(Upserted(c.row, row)))
  {}

  lemma FinalizeOnCell(cfg: Config, c: Cell, w: Window, env: Env)
    ensures CellApply(c, FinalizeOps(cfg, w, env)) == Finalized(c, w, env)
  {
    hide CellApply, CheckInvariants, BuildDetails, FinalRow, VerdictOps, DetailOps, CleanupOps, Upserted;
    var upsert, details := [UpsertTransaction(w.tx, FinalRow(w, env))], DetailOps(w.tx, BuildDetails(w));
    var verdict, cleanup := VerdictOps(cfg, w, env), CleanupOps(w.tx);
    CellConcat(c, upsert + details + verdict, cleanup);
    CellConcat(c, upsert + details, verdict);
    CellConcat(c, upsert, details);
    UpsertOnCell(c, w.tx, FinalRow(w, env));
    var c1 := CellApply(c, upsert);
    DetailsOnCell(c1, w.tx, BuildDetails(w));
    var c2 := CellApply(c1, details);
    VerdictOnCell(cfg, c2, w, env);
    CleanupOnCell(CellApply(c2, verdict), w.tx);
  }

  lemma DegradeOnCell(cfg: Config, c: Cell, tx: TxId, w: Window, env: Env)
    ensures CellApply(c, DegradeOps(cfg, tx, w, env)) == Degraded(c, tx, w, env)
  {
    hide CellApply, BuildDetails, DegradedRow, DetailOps, CleanupOps, Upserted, PersistIncidentOps, MissingIncident;
    var upsert, details := [UpsertTransaction(tx, DegradedRow(w, env))], DetailOps(tx, BuildDetails(w));
    var incident, cleanup := PersistIncidentOps(cfg, MissingIncident(tx, w), env.now), CleanupOps(tx);
    CellConcat(c, upsert + details + incident, cleanup);
    CellConcat(c, upsert + details, incident);
    CellConcat(c, upsert, details);
    UpsertOnCell(c, tx, DegradedRow(w, env));
    var c1 := CellApply(c, upsert);
    DetailsOnCell(c1, tx, BuildDetails(w));
    var c2 := CellApply(c1, details);
    PersistOneOnCell(cfg, c2, MissingIncident(tx, w), env.now);
    CleanupOnCell(CellApply(c2, incident), tx);
  }

  function PendingRow(e: PaymentEvent): TxRow {
    TxRow(Pending, e.currency, e.txType, e.merchantId, 0)
  }

  function Duplicated(c: Cell, e: PaymentEvent): Cell {
    c.(row := Some(Upserted(c.row, PendingRow(e))), incidents := c.incidents + [DuplicateIncident(e)])
  }

  lemma DuplicateOnCell(cfg: Config, c: Cell, d: Delivery)
    ensures CellApply(c, DuplicateOps(cfg, d)) == Duplicated(c, d.event)
  {
    hide CellApply, PersistIncidentOps, ProcessedMetric, Upserted, DuplicateIncident;
    var upsert := [UpsertTransaction(d.event.tx, PendingRow(d.event))];
    var incident := PersistIncidentOps(cfg, DuplicateIncident(d.event), d.env.now);
    CellConcat(c, upsert + incident, ProcessedMetric(d.env.processedUp));
    CellConcat(c, upsert, incident);
    UpsertOnCell(c, d.event.tx, PendingRow(d.event));
    PersistOneOnCell(cfg, CellApply(c, upsert), DuplicateIncident(d.event), d.env.now);
    MetricOnCell(CellApply(c, upsert + incident), true, d.env.processedUp);
  }

  function Opened(cfg: Config, c: Cell, d: Delivery): Cell {
    var w := Joined(cfg, c.window, d);
    c.(window := Some(w), deadline := if w.events == map[] then Some(w.deadline) else c.deadline)
  }

  lemma OpenOnCell(cfg: Config, c: Cell, d: Delivery)
    ensures CellApply(c, OpenOps(cfg, c.window, d)) == Opened(cfg, c, d)
  {
    hide CellApply;
    var w := Joined(cfg, c.window, d);
    var enter := if c.window.None? then [SetWindow(w)] else [];
    var queue := if w.events == map[] then [AddDeadline(d.event.tx, w.deadline), Publish] else [];
    CellConcat(c, enter, queue);
    EmptyOnCell(c);
    SetWindowOnCell(c, w);
    var c1 := CellApply(c, enter);
    EmptyOnCell(c1);
    CellApply2(c1, AddDeadline(d.event.tx, w.deadline), Publish);
  }

  lemma SetWindowOnCell(c: Cell, w: Window)
    ensures CellApply(c, [SetWindow(w)]) == c.(window := Some(w))
  {}

  function Holding(c: Cell, w: Window): Cell {
    c.(window := Some(w), checkpoint := Some(w))
  }

  lemma ResultOnCell(cfg: Config, c: Cell, w: Window, env: Env)
    ensures CellApply(c, ResultOps(cfg, w, env)) ==
            if IsComplete(w) then Finalized(c, Timed(w, env.elapsed), env) else Holding(c, Timed(w, env.elapsed))
  {
    hide CellApply, FinalizeOps, Finalized;
    var t := Timed(w, env.elapsed);
    if IsComplete(w) {
      FinalizeOnCell(cfg, c, t, env);
    } else {
      CellApply3(c, Publish, SetWindow(t), SaveWindow(t));
    }
  }

  lemma SaveOnCell(c: Cell, w: Window)
    ensures CellApply(c, [SetWindow(w), SaveWindow(w)]) == Holding(c, w)
  {
    CellApply2(c, SetWindow(w), SaveWindow(w));
  }

  lemma ArrivalOnCell(cfg: Config, c: Cell, d: Delivery)
    ensures var w := Extended(cfg, c.window, d);
            CellApply(c, ArrivalOps(cfg, c.window, d)) ==
            if IsComplete(w) then Finalized(c, Timed(w, d.env.elapsed), d.env)
            else Holding(Opened(cfg, c, d), Timed(w, d.env.elapsed))
  {
    hide CellApply, OpenOps, ResultOps, ProcessedMetric, CheckInvariants, BuildDetails, FinalRow, Extended, Joined,
         Upserted, PutAll;
    var w := Extended(cfg, c.window, d);
    var first, second, third := OpenOps(cfg, c.window, d), [SetWindow(w), SaveWindow(w)], ResultOps(cfg, w, d.env);
    CellConcat(c, first + second + third, ProcessedMetric(d.env.processedUp));
    CellConcat(c, first + second, third);
    CellConcat(c, first, second);
    OpenOnCell(cfg, c, d);
    var c1 := CellApply(c, first);
    SaveOnCell(c1, w);
    ResultOnCell(cfg, CellApply(c1, second), w, d.env);
    MetricOnCell(CellApply(c, first + second + third), true, d.env.processedUp);
  }

  predicate Repeats(c: Cell, e: PaymentEvent) {
    e.source in OrEmpty(c.sources)
  }

  function WithSource(c: Cell, src: Source): Cell {
    c.(sources := Some(OrEmpty(c.sources) + {src}))
  }

  /** handle_event on one transaction's cell, for an event that is not claimed yet. */
  function AfterEvent(cfg: Config, c: Cell, d: Delivery): Cell {
    var w := Extended(cfg, c.window, d);
    var c1 := WithSource(c, d.event.source);
    if Repeats(c, d.event) then Duplicated(c1, d.event)
    else if IsComplete(w) then Finalized(c, Timed(w, d.env.elapsed), d.env)
    else Holding(Opened(cfg, c1, d), Timed(w, d.env.elapsed))
  }

  lemma EventOnCell(cfg: Config, c: Cell, d: Delivery)
    ensures CellApply(c, EventOps(cfg, false, Repeats(c, d.event), c.window, d)) == AfterEvent(cfg, c, d)
  {
    hide CellApply, DuplicateOps, ArrivalOps, Extended, CheckInvariants, BuildDetails, FinalRow, Joined, Upserted,
         PutAll, IsComplete;
    var e := d.event;
    var claim, source := [ClaimEvent(e.eventId)], [RegisterSource(e.tx, e.source), TouchSources(e.tx)];
    var rest := if Repeats(c, e) then DuplicateOps(cfg, d) else ArrivalOps(cfg, c.window, d);
    CellConcat(c, claim, source + rest);
    ClaimOnCell(c, e.eventId);
    CellConcat(c, source, rest);
    CellApply2(c, RegisterSource(e.tx, e.source), TouchSources(e.tx));
    var c1 := WithSource(c, e.source);
    DuplicateOnCell(cfg, c1, d);
    ArrivalOnCell(cfg, c1, d);
  }

  lemma ClaimOnCell(c: Cell, id: EventId)
    ensures CellApply(c, [ClaimEvent(id)]) == c
  {}

  /** handle_timeout on the cell of a popped transaction. */
  function AfterTimeout(c: Cell, tx: TxId, env: Env): Cell {
    if c.window.None? then c
    else if IsComplete(c.window.value) then Finalized(c, c.window.value, env)
    else Degraded(c, tx, c.window.value, env)
  }

  lemma TimeoutEffectOnCell(cfg: Config, c: Cell, tx: TxId, env: Env)
    ensures CellApply(c, TimeoutOps(cfg, tx, c.window, env)) == AfterTimeout(c, tx, env)
  {
    hide CellApply, FinalizeOps, DegradeOps, CheckInvariants, BuildDetails, FinalRow, DegradedRow, PutAll, Upserted;
    EmptyOnCell(c);
    if c.window.Some? {
      var w := c.window.value;
      var rest := if IsComplete(w) then FinalizeOps(cfg, w, env) else DegradeOps(cfg, tx, w, env);
      CellConcat(c, [RemoveWindow(tx)], rest);
      RemoveOnCell(c, tx);
      FinalizeOnCell(cfg, c.(window := None), w, env);
      DegradeOnCell(cfg, c.(window := None), tx, w, env);
    }
  }

  lemma RemoveOnCell(c: Cell, tx: TxId)
    ensures CellApply(c, [RemoveWindow(tx)]) == c.(window := None)
  {}

  /** A step without store failures, on its transaction's cell. */
  function CleanStep(cfg: Config, c: Cell, claimed: bool, a: Action): Cell {
    match a
    case Deliver(d, _) => if claimed then c else AfterEvent(cfg, c, d)
    case PopDeadline(_) =>
      if c.deadline.None? then c else c.(deadline := None, popped := c.popped + 1)
    case Timeout(tx, env, _) =>
      if c.popped == 0 then c else AfterTimeout(c.(popped := c.popped - 1), tx, env)
    case _ => c
  }

  lemma CleanCellStep(cfg: Config, c: Cell, claimed: bool, a: Action)
    requires Clean(a)
    ensures CellStep(cfg, c, claimed, a) == CleanStep(cfg, c, claimed, a)
  {
    hide CellApply, EventOps, TimeoutOps, AfterEvent, AfterTimeout;
    match a
    case Deliver(d, _) =>
      if claimed {
        NoEventOps(cfg, Repeats(c, d.event), c.window, d);
        EmptyOnCell(c);
      } else {
        EventOnCell(cfg, c, d);
      }
    case Timeout(tx, env, _) =>
      if c.popped > 0 { TimeoutEffectOnCell(cfg, c.(popped := c.popped - 1), tx, env); }
    case _ =>
  }

  lemma NoEventOps(cfg: Config, registered: bool, open: Option<Window>, d: Delivery)
    ensures EventOps(cfg, true, registered, open, d) == []
  {}

  // ----- The joint invariant -----

  predicate WellKeyed(tx: TxId, w: Window) {
    && w.tx == tx
    && forall src <- w.events :: w.events[src].source == src && w.events[src].tx == tx
  }

  predicate OpenWindow(cfg: Config, tx: TxId, c: Cell, w: Window) {
    && WellKeyed(tx, w)
    && w.events != map[] && !IsComplete(w)
    && w.deadline == w.firstSeen + cfg.timeoutMs
    && c.sources == Some(w.events.Keys)
    && c.checkpoint == Some(w)
    && (c.deadline == Some(w.deadline) || (c.deadline == None && c.popped > 0))
  }

  predicate Coherent(cfg: Config, tx: TxId, c: Cell) {
    && (match c.window
        case None => c.sources.None? && c.checkpoint.None? && c.deadline.None?
        case Some(w) => OpenWindow(cfg, tx, c, w))
    && (c.row.Some? && c.row.value.status == Pending ==> c.window.Some?)
    && (c.details != map[] || c.incidents != [] ==> c.row.Some?)
  }

  lemma FinalizedCoherent(cfg: Config, tx: TxId, c: Cell, w: Window, env: Env)
    ensures Coherent(cfg, tx, Finalized(c, w, env))
  {
    hide PutAll, BuildDetails, CheckInvariants;
  }

  lemma DegradedCoherent(cfg: Config, tx: TxId, c: Cell, w: Window, env: Env)
    ensures Coherent(cfg, tx, Degraded(c, tx, w, env))
  {
    hide PutAll, BuildDetails, CheckInvariants;
  }

  lemma ProgressCoherent(cfg: Config, tx: TxId, c: Cell, d: Delivery)
    requires Coherent(cfg, tx, c) && d.event.tx == tx
    requires !Repeats(c, d.event) && !IsComplete(Extended(cfg, c.window, d))
    ensures Coherent(cfg, tx, AfterEvent(cfg, c, d))
  {
    hide IsComplete, Finalized, Duplicated;
    var w := Extended(cfg, c.window, d);
    assert w.events.Keys == OrEmpty(c.sources) + {d.event.source};
    assert d.event.source in w.events;
    assert IsComplete(w) == IsComplete(Timed(w, d.env.elapsed)) by { TimedComplete(w, d.env.elapsed); }
  }

  lemma TimedComplete(w: Window, elapsed: int)
    ensures IsComplete(Timed(w, elapsed)) == IsComplete(w)
  {}

  lemma EventKeepsCoherent(cfg: Config, tx: TxId, c: Cell, d: Delivery)
    requires Coherent(cfg, tx, c) && d.event.tx == tx
    ensures Coherent(cfg, tx, AfterEvent(cfg, c, d))
  {
    hide Finalized, Joined, Extended, IsComplete, WellKeyed;
    var w := Extended(cfg, c.window, d);
    if Repeats(c, d.event) {
      assert OrEmpty(c.sources) + {d.event.source} == OrEmpty(c.sources);
    } else if IsComplete(w) {
      FinalizedCoherent(cfg, tx, c, Timed(w, d.env.elapsed), d.env);
    } else {
      ProgressCoherent(cfg, tx, c, d);
    }
  }

  lemma CleanKeepsCoherent(cfg: Config, tx: TxId, c: Cell, claimed: bool, a: Action)
    requires Coherent(cfg, tx, c) && ActionTx(a) == Some(tx)
    ensures Coherent(cfg, tx, CleanStep(cfg, c, claimed, a))
  {
    hide AfterEvent, Finalized, Degraded, IsComplete, WellKeyed;
    match a
    case Deliver(d, _) => if !claimed { EventKeepsCoherent(cfg, tx, c, d); }
    case Timeout(_, env, _) =>
      if c.window.Some? {
        FinalizedCoherent(cfg, tx, c.(popped := if c.popped > 0 then c.popped - 1 else 0), c.window.value, env);
        DegradedCoherent(cfg, tx, c.(popped := if c.popped > 0 then c.popped - 1 else 0), c.window.value, env);
      }
    case _ =>
  }

  ghost predicate Inv(cfg: Config, s: State) {
    Keyed(s) && forall tx: TxId :: Coherent(cfg, tx, CellOf(s, tx))
  }

  lemma InitCoherent(cfg: Config)
    ensures Inv(cfg, INIT)
  {}

  lemma StepKeepsInv(cfg: Config, s: State, a: Action)
    requires Inv(cfg, s) && Clean(a)
    ensures Inv(cfg, Step(cfg, s, a))
  {
    hide CellOf, Step, CellStep, CleanStep, Coherent, Keyed;
    StepKeepsKeyed(cfg, s, a);
    forall tx: TxId ensures Coherent(cfg, tx, CellOf(Step(cfg, s, a), tx)) {
      StepOnCell(cfg, s, a, tx);
      var c := CellOf(s, tx);
      assert Coherent(cfg, tx, c);
      if ActionTx(a) == Some(tx) {
        CleanCellStep(cfg, c, AlreadyClaimed(s, a), a);
        CleanKeepsCoherent(cfg, tx, c, AlreadyClaimed(s, a), a);
      }
    }
  }

  lemma {:induction false} RunKeepsInv(cfg: Config, s: State, actions: seq<Action>)
    requires Inv(cfg, s) && AllClean(actions)
    ensures Inv(cfg, Run(cfg, s, actions))
    decreases |actions|
  {
    hide Inv, Step;
    if actions == [] {
    } else {
      assert actions[0] in actions;
      StepKeepsInv(cfg, s, actions[0]);
      RunKeepsInv(cfg, Step(cfg, s, actions[0]), actions[1..]);
    }
  }

  // ----- What the invariant says about the stores -----

  lemma {:induction false} IncidentListed(rows: seq<IncidentRow>, id: nat)
    requires id < |rows|
    ensures IncidentsOf(rows, rows[id].incident.tx) != []
    decreases |rows|
  {
    var last := |rows| - 1;
    if id == last {
    } else {
      IncidentListed(rows[..last], id);
    }
  }

  /** Reading the invariant off the cells. */
  lemma CoherentTx(cfg: Config, s: State, tx: TxId)
    requires Inv(cfg, s)
    ensures Coherent(cfg, tx, CellOf(s, tx))
    ensures tx in s.windows <==> tx in s.redis.sources
    ensures tx in s.windows <==> tx in s.redis.checkpoints
    ensures tx in s.windows ==> OpenWindow(cfg, tx, CellOf(s, tx), s.windows[tx])
    ensures tx in s.redis.deadlines ==> tx in s.windows && s.redis.deadlines[tx] == s.windows[tx].deadline
    ensures tx in s.windows ==> tx in s.redis.deadlines || tx in s.popped
  {
    hide IncidentsOf, WellKeyed, IsComplete;
    assert Coherent(cfg, tx, CellOf(s, tx));
  }

  /** In every state that a run without store failures reaches: a source set, a checkpoint and
      a window exist together and agree, a window holds one or two well-keyed events, every
      deadline is its window's, every window has a deadline or is in a timer pass, a pending
      row has a window, and incidents and details have a transaction row. */
  lemma JointInvariant(cfg: Config, actions: seq<Action>)
    requires AllClean(actions)
    ensures var s := Run(cfg, INIT, actions);
            && s.redis.checkpoints == s.windows
            && s.redis.sources == (map tx | tx in s.windows :: s.windows[tx].events.Keys)
            && (forall tx <- s.windows ::
                  && WellKeyed(tx, s.windows[tx]) && 1 <= |s.windows[tx].events| <= 2
                  && (tx in s.redis.deadlines || tx in s.popped))
            && (forall tx <- s.redis.deadlines ::
                  tx in s.windows && s.redis.deadlines[tx] == s.windows[tx].firstSeen + cfg.timeoutMs)
            && (forall tx <- s.pg.transactions ::
                  s.pg.transactions[tx].status == Pending ==> tx in s.windows)
            && (forall tx <- s.pg.details :: s.pg.details[tx] != map[] ==> tx in s.pg.transactions)
            && (forall row <- s.pg.incidents :: row.incident.tx in s.pg.transactions)
  {
    InitCoherent(cfg);
    RunKeepsInv(cfg, INIT, actions);
    InvMeaning(cfg, Run(cfg, INIT, actions));
  }

  lemma InvMeaning(cfg: Config, s: State)
    requires Inv(cfg, s)
    ensures s.redis.checkpoints == s.windows
    ensures s.redis.sources == (map tx | tx in s.windows :: s.windows[tx].events.Keys)
    ensures forall tx <- s.windows ::
              && WellKeyed(tx, s.windows[tx]) && 1 <= |s.windows[tx].events| <= 2
              && (tx in s.redis.deadlines || tx in s.popped)
    ensures forall tx <- s.redis.deadlines ::
              tx in s.windows && s.redis.deadlines[tx] == s.windows[tx].firstSeen + cfg.timeoutMs
    ensures forall tx <- s.pg.transactions :: s.pg.transactions[tx].status == Pending ==> tx in s.windows
    ensures forall tx <- s.pg.details :: s.pg.details[tx] != map[] ==> tx in s.pg.transactions
    ensures forall row <- s.pg.incidents :: row.incident.tx in s.pg.transactions
  {
    hide Inv, CellOf, IncidentsOf, Coherent, WellKeyed;
    forall tx: TxId
      ensures tx in s.windows <==> tx in s.redis.sources
      ensures tx in s.windows <==> tx in s.redis.checkpoints
      ensures tx in s.windows ==>
                && s.redis.checkpoints[tx] == s.windows[tx]
                && s.redis.sources[tx] == s.windows[tx].events.Keys
                && WellKeyed(tx, s.windows[tx]) && 1 <= |s.windows[tx].events| <= 2
                && (tx in s.redis.deadlines || tx in s.popped)
      ensures tx in s.redis.deadlines ==>
                tx in s.windows && s.redis.deadlines[tx] == s.windows[tx].firstSeen + cfg.timeoutMs
      ensures tx in s.pg.transactions && s.pg.transactions[tx].status == Pending ==> tx in s.windows
      ensures tx in s.pg.details && s.pg.details[tx] != map[] ==> tx in s.pg.transactions
    {
      TxMeaning(cfg, s, tx);
    }
    forall row <- s.pg.incidents ensures row.incident.tx in s.pg.transactions {
      var id: nat :| id < |s.pg.incidents| && s.pg.incidents[id] == row;
      IncidentListed(s.pg.incidents, id);
      RowMeaning(cfg, s, row.incident.tx);
    }
  }

  lemma RowMeaning(cfg: Config, s: State, tx: TxId)
    requires Inv(cfg, s) && IncidentsOf(s.pg.incidents, tx) != []
    ensures tx in s.pg.transactions
  {
    hide IncidentsOf;
    assert Coherent(cfg, tx, CellOf(s, tx));
  }

  lemma TxMeaning(cfg: Config, s: State, tx: TxId)
    requires Inv(cfg, s)
    ensures tx in s.windows <==> tx in s.redis.sources
    ensures tx in s.windows <==> tx in s.redis.checkpoints
    ensures tx in s.windows ==>
              && s.redis.checkpoints[tx] == s.windows[tx]
              && s.redis.sources[tx] == s.windows[tx].events.Keys
              && WellKeyed(tx, s.windows[tx]) && 1 <= |s.windows[tx].events| <= 2
              && (tx in s.redis.deadlines || tx in s.popped)
    ensures tx in s.redis.deadlines ==>
              tx in s.windows && s.redis.deadlines[tx] == s.windows[tx].firstSeen + cfg.timeoutMs
    ensures tx in s.pg.transactions && s.pg.transactions[tx].status == Pending ==> tx in s.windows
    ensures tx in s.pg.details && s.pg.details[tx] != map[] ==> tx in s.pg.transactions
  {
    hide IncidentsOf, WellKeyed, Inv;
    CoherentTx(cfg, s, tx);
    var c := CellOf(s, tx);
    if tx in s.windows {
      assert c.window == Some(s.windows[tx]);
      NonEmpty(s.windows[tx].events);
    }
  }

  lemma NonEmpty(events: map<Source, PaymentEvent>)
    requires events != map[]
    ensures |events| >= 1
  {
    var src :| src in events;
    assert events.Keys == {src} + (events.Keys - {src});
  }

  /** What a step without store failures reports when it closes a window: nothing more for a
      match, one or two findings for a mismatch, and for a window that was not complete one
      incident that names exactly the sources that had not reported. */
  lemma CloseReport(cfg: Config, s: State, a: Action, tx: TxId)
    requires Inv(cfg, s) && Clean(a) && tx in s.windows && tx !in Step(cfg, s, a).windows
    ensures var before, after := CellOf(s, tx), CellOf(Step(cfg, s, a), tx);
            && ActionTx(a) == Some(tx) && after.row.Some? && before.incidents <= after.incidents
            && var reported := after.incidents[|before.incidents|..];
               match after.row.value.status
               case Pending => false
               case MatchedStatus => a.Deliver? && reported == []
               case MismatchStatus =>
                 && a.Deliver? && 1 <= |reported| <= 2
                 && forall i <- reported :: i.kind in {AmountMismatch, FeeMismatch, CurrencyMismatch}
               case DegradedStatus =>
                 && a.Timeout? && |reported| == 1 && reported[0].kind == MissingSource
                 && (forall src :: src in reported[0].named <==> src !in s.windows[tx].events)
                 && forall i, j | 0 <= i < j < |reported[0].named| ::
                      SourceOrder(reported[0].named[i]) < SourceOrder(reported[0].named[j])
  {
    hide CellOf, Step, CellStep, Inv, Coherent, PutAll, BuildDetails, WellKeyed;
    CoherentTx(cfg, s, tx);
    CellWindows(s, tx);
    CellWindows(Step(cfg, s, a), tx);
    assert Keyed(s) by { InvKeyed(cfg, s); }
    StepOnCell(cfg, s, a, tx);
    var c := CellOf(s, tx);
    CleanCellStep(cfg, c, AlreadyClaimed(s, a), a);
    match a
    case Deliver(d, _) => EventClose(cfg, c, d);
    case Timeout(_, env, _) => CompleteMeansAllThree(s.windows[tx]);
    case _ =>
  }

  lemma InvKeyed(cfg: Config, s: State)
    requires Inv(cfg, s)
    ensures Keyed(s)
  {}

  lemma CellWindows(s: State, tx: TxId)
    ensures CellOf(s, tx).window == Lookup(s.windows, tx)
  {}

  lemma EventClose(cfg: Config, c: Cell, d: Delivery)
    requires c.window.Some? && AfterEvent(cfg, c, d).window.None?
    ensures var after := AfterEvent(cfg, c, d);
            && after.row.Some? && c.incidents <= after.incidents
            && var reported := after.incidents[|c.incidents|..];
               || (after.row.value.status == MatchedStatus && reported == [])
               || (&& after.row.value.status == MismatchStatus && 1 <= |reported| <= 2
                   && forall i <- reported :: i.kind in {AmountMismatch, FeeMismatch, CurrencyMismatch})
  {
    hide PutAll, BuildDetails, IsComplete, CheckInvariants, Joined, Opened;
    var w := Timed(Extended(cfg, c.window, d), d.env.elapsed);
    TimedComplete(Extended(cfg, c.window, d), d.env.elapsed);
    Findings(w);
    var found := IncidentsIn(CheckInvariants(w));
    assert (c.incidents + found)[|c.incidents|..] == found;
  }

  lemma Findings(w: Window)
    requires IsComplete(w)
    ensures var found := IncidentsIn(CheckInvariants(w));
            if CheckInvariants(w).Matched? then found == []
            else 1 <= |found| <= 2
                 && forall i <- found :: i.kind in {AmountMismatch, FeeMismatch, CurrencyMismatch}
  {
    CompleteMeansAllThree(w);
  }

  // ----- The detail rows of a close -----

  predicate CurrenciesDiffer(events: map<Source, PaymentEvent>) {
    exists a, b :: a in events && b in events && events[a].currency != events[b].currency
  }

  predicate GatewayDiffersFromMerchant(events: map<Source, PaymentEvent>) {
    Merchant in events && Gateway in events && events[Merchant].amount != events[Gateway].amount
  }

  /** Exact, unless the gateway's subtraction leaves the 64-bit range. */
  predicate BankDiffersFromGateway(events: map<Source, PaymentEvent>) {
    Gateway in events && Bank in events &&
    var g, b := events[Gateway], events[Bank];
    if I64_MIN <= g.amount - g.fee <= I64_MAX then b.amount + g.fee != g.amount
    else b.amount != Sub64(g.amount, g.fee)
  }

  /** The source whose report a source's amount is held against. */
  function Counterpart(src: Source): Source {
    match src case Merchant => Gateway case Gateway => Merchant case Bank => Gateway
  }

  function ExpectedReason(src: Source, events: map<Source, PaymentEvent>): Option<Reason> {
    if CurrenciesDiffer(events) then Some(CurrencyReason)
    else match src
    case Merchant => if GatewayDiffersFromMerchant(events) then Some(MerchantAmountReason) else None
    case Gateway =>
      if GatewayDiffersFromMerchant(events) || BankDiffersFromGateway(events) then Some(GatewayConsistencyReason)
      else None
    case Bank => if BankDiffersFromGateway(events) then Some(BankAmountReason) else None
  }

  /** What a source's row says: its own figures; what was expected of it, which is known exactly
      if its counterpart has reported; whether the two agree; and why not. */
  predicate RowOfSource(row: Detail, src: Source, events: map<Source, PaymentEvent>)
    requires src in events
  {
    && row.source == src && row.amountActual == Some(events[src].amount) && row.feeActual == Some(events[src].fee)
    && row.feeExpected == (if src == Merchant then Some(0) else None)
    && (row.amountExpected.Some? <==> Counterpart(src) in events)
    && (row.amountExpected.Some? && src != Bank ==> row.amountExpected.value == events[Counterpart(src)].amount)
    && (row.amountExpected.Some? && src == Bank ==>
          var g := events[Gateway];
          I64_MIN <= g.amount - g.fee <= I64_MAX ==> row.amountExpected.value + g.fee == g.amount)
    && (row.isMatched <==> row.amountExpected == row.amountActual)
    && (row.isMatched <==>
          && Counterpart(src) in events
          && (if src == Bank then !BankDiffersFromGateway(events) else !GatewayDiffersFromMerchant(events)))
    && row.reason == ExpectedReason(src, events)
  }

  lemma CurrenciesDifferIff(events: map<Source, PaymentEvent>)
    ensures CurrenciesDiffer(events) <==> CurrencyDiffers(events)
  {
    if a, b :| a in events && b in events && events[a].currency != events[b].currency {
      match a { case Merchant => case Gateway => case Bank => }
      match b { case Merchant => case Gateway => case Bank => }
    }
  }

  lemma {:induction false} PutAllAt(rows: map<Source, Detail>, details: seq<Detail>, src: Source)
    requires forall i, j | 0 <= i < j < |details| :: details[i].source != details[j].source
    ensures forall i | 0 <= i < |details| ::
              details[i].source in PutAll(rows, details) && PutAll(rows, details)[details[i].source] == details[i]
    ensures (forall row <- details :: row.source != src) ==>
              Lookup(PutAll(rows, details), src) == Lookup(rows, src)
    decreases |details|
  {
    if details == [] {
    } else {
      PutAllAt(rows[details[0].source := details[0]], details[1..], details[0].source);
      PutAllAt(rows[details[0].source := details[0]], details[1..], src);
      forall i | 0 < i < |details|
        ensures details[i].source in PutAll(rows, details) && PutAll(rows, details)[details[i].source] == details[i]
      {
        assert details[1..][i - 1] == details[i];
      }
      assert forall row <- details[1..] :: row.source != details[0].source;
    }
  }

  lemma DetailsWritten(rows: map<Source, Detail>, w: Window, src: Source)
    ensures var t := PutAll(rows, BuildDetails(w));
            if src in w.events then src in t && RowOfSource(t[src], src, w.events)
            else Lookup(t, src) == Lookup(rows, src)
  {
    hide BuildDetails, RowOfSource, PutAll;
    var details := BuildDetails(w);
    OneRowEach(w, src);
    PutAllAt(rows, details, src);
    if src in w.events {
      var i :| 0 <= i < |details| && details[i].source == src;
      assert details[i] in details;
    }
  }

  lemma OneRowEach(w: Window, src: Source)
    ensures var details := BuildDetails(w);
            && (forall i, j | 0 <= i < j < |details| :: details[i].source != details[j].source)
            && (src in w.events <==> exists row <- details :: row.source == src)
            && forall row <- details :: row.source in w.events && RowOfSource(row, row.source, w.events)
  {
    hide MerchantDetail, GatewayDetail, BankDetail, RowOfSource;
    MerchantRow(w.events);
    GatewayRow(w.events);
    BankRow(w.events);
    var m, g, b := MerchantDetail(w.events), GatewayDetail(w.events), BankDetail(w.events);
    assert BuildDetails(w) == m + g + b;
    if src in w.events {
      var row := match src case Merchant => m[0] case Gateway => g[0] case Bank => b[0];
      assert row in BuildDetails(w);
    }
  }

  lemma MerchantRow(events: map<Source, PaymentEvent>)
    ensures var rows := MerchantDetail(events);
            if Merchant in events
            then |rows| == 1 && rows[0].source == Merchant && RowOfSource(rows[0], Merchant, events)
            else rows == []
  {
    hide CurrencyDiffers, CurrenciesDiffer;
    CurrenciesDifferIff(events);
  }

  lemma GatewayRow(events: map<Source, PaymentEvent>)
    ensures var rows := GatewayDetail(events);
            if Gateway in events then |rows| == 1 && rows[0].source == Gateway && RowOfSource(rows[0], Gateway, events)
            else rows == []
  {
    hide CurrencyDiffers, CurrenciesDiffer;
    CurrenciesDifferIff(events);
  }

  lemma BankRow(events: map<Source, PaymentEvent>)
    ensures var rows := BankDetail(events);
            if Bank in events then |rows| == 1 && rows[0].source == Bank && RowOfSource(rows[0], Bank, events)
            else rows == []
  {
    hide CurrencyDiffers, CurrenciesDiffer;
    CurrenciesDifferIff(events);
  }

  /** The events that a window held when the step closed it. */
  function EventsAtClose(s: State, a: Action, tx: TxId): map<Source, PaymentEvent>
    requires tx in s.windows
  {
    var events := s.windows[tx].events;
    if a.Deliver? then events[a.d.event.source := a.d.event] else events
  }

  /** A step that closes a window writes one row for each source that had reported, and leaves the
      rows of the others as they were. */
  lemma CloseDetails(cfg: Config, s: State, a: Action, tx: TxId, src: Source)
    requires Inv(cfg, s) && Clean(a) && tx in s.windows && tx !in Step(cfg, s, a).windows
    ensures var before, after, events := CellOf(s, tx), CellOf(Step(cfg, s, a), tx), EventsAtClose(s, a, tx);
            if src in events then src in after.details && RowOfSource(after.details[src], src, events)
            else Lookup(after.details, src) == Lookup(before.details, src)
  {
    hide CellOf, Step, CellStep, Inv, Coherent, PutAll, BuildDetails, RowOfSource, IsComplete;
    CoherentTx(cfg, s, tx);
    InvKeyed(cfg, s);
    CellWindows(s, tx);
    CellWindows(Step(cfg, s, a), tx);
    StepOnCell(cfg, s, a, tx);
    CleanCellStep(cfg, CellOf(s, tx), AlreadyClaimed(s, a), a);
    match a
    case Deliver(d, _) =>
      DetailsWritten(CellOf(s, tx).details, Timed(Extended(cfg, Some(s.windows[tx]), d), d.env.elapsed), src);
    case Timeout(_, _, _) => DetailsWritten(CellOf(s, tx).details, s.windows[tx], src);
    case _ =>
  }

  /** A timeout of an open window always does. */
  lemma TimeoutDetails(cfg: Config, s: State, tx: TxId, env: Env, src: Source)
    requires Inv(cfg, s) && tx in s.windows && tx in s.popped && Clean(Timeout(tx, env, None))
    ensures var before, after := CellOf(s, tx), CellOf(Step(cfg, s, Timeout(tx, env, None)), tx);
            if src in s.windows[tx].events
            then src in after.details && RowOfSource(after.details[src], src, s.windows[tx].events)
            else Lookup(after.details, src) == Lookup(before.details, src)
  {
    hide CellOf, Step, CellStep, Inv, Coherent, PutAll, BuildDetails, RowOfSource;
    var a := Timeout(tx, env, None);
    CoherentTx(cfg, s, tx);
    InvKeyed(cfg, s);
    StepOnCell(cfg, s, a, tx);
    CleanCellStep(cfg, CellOf(s, tx), false, a);
    PoppedCount(s, tx);
    DetailsWritten(CellOf(s, tx).details, s.windows[tx], src);
  }

  lemma PoppedCount(s: State, tx: TxId)
    requires tx in s.popped
    ensures CellOf(s, tx).popped > 0 && CellOf(s, tx).window == Lookup(s.windows, tx)
  {}

  /** Each kind of incident is there exactly if its check fails, and none of the others if the
      currencies differ; a difference in amounts comes before one in fees. */
  predicate FindingsOf(found: seq<Incident>, tx: TxId, events: map<Source, PaymentEvent>) {
    && (forall i <- found :: i.tx == tx && i.severity == 1)
    && ((exists i <- found :: i.kind == CurrencyMismatch) <==> CurrenciesDiffer(events))
    && ((exists i <- found :: i.kind == AmountMismatch) <==>
          !CurrenciesDiffer(events) && GatewayDiffersFromMerchant(events))
    && ((exists i <- found :: i.kind == FeeMismatch) <==> !CurrenciesDiffer(events) && BankDiffersFromGateway(events))
    && forall i, j | 0 <= i < j < |found| :: found[i].kind == AmountMismatch && found[j].kind == FeeMismatch
  }

  /** What the event that completes a window finds, and that it is a match exactly if it finds
      nothing. */
  lemma CloseFindings(cfg: Config, s: State, d: Delivery)
    requires Inv(cfg, s) && Clean(Deliver(d, None))
    requires d.event.tx in s.windows && d.event.tx !in Step(cfg, s, Deliver(d, None)).windows
    ensures var tx := d.event.tx;
            var before, after := CellOf(s, tx), CellOf(Step(cfg, s, Deliver(d, None)), tx);
            && before.incidents <= after.incidents && after.row.Some?
            && var found := after.incidents[|before.incidents|..];
               && FindingsOf(found, tx, s.windows[tx].events[d.event.source := d.event])
               && (after.row.value.status == MatchedStatus <==> found == [])
  {
    hide CellOf, Step, CellStep, Inv, Coherent, PutAll, BuildDetails, WellKeyed, IsComplete, CheckInvariants,
         FindingsOf;
    var tx, a := d.event.tx, Deliver(d, None);
    InvKeyed(cfg, s);
    CoherentTx(cfg, s, tx);
    CellWindows(s, tx);
    CellWindows(Step(cfg, s, a), tx);
    StepOnCell(cfg, s, a, tx);
    CleanCellStep(cfg, CellOf(s, tx), AlreadyClaimed(s, a), a);
    var c, w := CellOf(s, tx), Timed(Extended(cfg, Some(s.windows[tx]), d), d.env.elapsed);
    TimedComplete(Extended(cfg, Some(s.windows[tx]), d), d.env.elapsed);
    FoundInWindow(w);
    var found := IncidentsIn(CheckInvariants(w));
    assert (c.incidents + found)[|c.incidents|..] == found;
  }

  lemma FoundInWindow(w: Window)
    requires IsComplete(w)
    ensures FindingsOf(IncidentsIn(CheckInvariants(w)), w.tx, w.events)
    ensures CheckInvariants(w).Matched? <==> IncidentsIn(CheckInvariants(w)) == []
  {
    VerdictFindings(w);
    CurrenciesDifferIff(w.events);
    CompleteMeansAllThree(w);
    hide CheckInvariants, CurrencyDiffers, CurrenciesDiffer, IsComplete;
    var found := IncidentsIn(CheckInvariants(w));
    if found != [] { assert found[0] in found; }
    if |found| == 2 { assert found[1] in found; }
  }
}
