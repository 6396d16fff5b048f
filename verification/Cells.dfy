/** The engine is a product of independent machines, one for each transaction. A cell is one
    transaction's share of the state; every step moves the cell of its own transaction by a
    function of that cell alone and leaves all other cells as they are. */
module Cells {
  import opened Wrappers
  import opened Model
  import opened Store
  import opened Matcher

  /** `incidents` lists what was inserted for the transaction, in order, without ids. */
  datatype Cell = Cell(
    window: Option<Window>, sources: Option<set<Source>>, checkpoint: Option<Window>,
    deadline: Option<int>, popped: nat,
    row: Option<TxRow>, details: map<Source, Detail>, incidents: seq<Incident>)

  function IncidentsOf(rows: seq<IncidentRow>, tx: TxId): seq<Incident> {
    if rows == [] then []
    else
      var last := rows[|rows| - 1].incident;
      IncidentsOf(rows[..|rows| - 1], tx) + (if last.tx == tx then [last] else [])
  }

  function CellOf(s: State, tx: TxId): Cell {
    Cell(Lookup(s.windows, tx), Lookup(s.redis.sources, tx), Lookup(s.redis.checkpoints, tx),
         Lookup(s.redis.deadlines, tx), s.popped[tx],
         Lookup(s.pg.transactions, tx), RowsOf(Lookup(s.pg.details, tx)), IncidentsOf(s.pg.incidents, tx))
  }

  function Target(op: Op): Option<TxId> {
    match op
    case RegisterSource(tx, _) => Some(tx)
    case TouchSources(tx) => Some(tx)
    case AddDeadline(tx, _) => Some(tx)
    case SetWindow(w) => Some(w.tx)
    case SaveWindow(w) => Some(w.tx)
    case UpsertTransaction(tx, _) => Some(tx)
    case UpsertDetail(tx, _) => Some(tx)
    case CreateIncident(incident) => Some(incident.tx)
    case RemoveWindow(tx) => Some(tx)
    case DeleteWindow(tx) => Some(tx)
    case RemoveDeadline(tx) => Some(tx)
    case CleanupSources(tx) => Some(tx)
    case _ => None
  }

  function CellOp(c: Cell, op: Op): Cell {
    match op
    case RegisterSource(_, src) => c.(sources := Some(OrEmpty(c.sources) + {src}))
    case AddDeadline(_, at) => c.(deadline := Some(at))
    case SetWindow(w) => c.(window := Some(w))
    case SaveWindow(w) => c.(checkpoint := Some(w))
    case UpsertTransaction(_, row) => c.(row := Some(Upserted(c.row, row)))
    case UpsertDetail(_, detail) => c.(details := c.details[detail.source := detail])
    case CreateIncident(incident) => c.(incidents := c.incidents + [incident])
    case RemoveWindow(_) => c.(window := None)
    case DeleteWindow(_) => c.(checkpoint := None)
    case RemoveDeadline(_) => c.(deadline := None)
    case CleanupSources(_) => c.(sources := None)
    case _ => c
  }

  lemma OpOnCell(s: State, op: Op, tx: TxId)
    ensures CellOf(ApplyOp(s, op), tx) ==
            if Target(op) == Some(tx) then CellOp(CellOf(s, tx), op) else CellOf(s, tx)
    ensures !op.ClaimEvent? ==> ApplyOp(s, op).redis.claims == s.redis.claims
  {
    hide CellOf, ApplyOp, CellOp, Target;
    if op.UpsertTransaction? || op.UpsertDetail? || op.CreateIncident? {
      ReportOnCell(s, op, tx);
    } else if op.SetWindow? || op.SaveWindow? || op.RemoveWindow? || op.DeleteWindow? {
      WindowOnCell(s, op, tx);
    } else {
      QueueOnCell(s, op, tx);
    }
  }

  lemma WindowOnCell(s: State, op: Op, tx: TxId)
    requires op.SetWindow? || op.SaveWindow? || op.RemoveWindow? || op.DeleteWindow?
    ensures CellOf(ApplyOp(s, op), tx) ==
            if Target(op) == Some(tx) then CellOp(CellOf(s, tx), op) else CellOf(s, tx)
    ensures ApplyOp(s, op).redis.claims == s.redis.claims
  {
    hide IncidentsOf;
  }

  /** Claims, source sets, deadlines, escalations, counters and notifications. */
  lemma QueueOnCell(s: State, op: Op, tx: TxId)
    requires !op.UpsertTransaction? && !op.UpsertDetail? && !op.CreateIncident?
    requires !op.SetWindow? && !op.SaveWindow? && !op.RemoveWindow? && !op.DeleteWindow?
    ensures CellOf(ApplyOp(s, op), tx) ==
            if Target(op) == Some(tx) then CellOp(CellOf(s, tx), op) else CellOf(s, tx)
    ensures !op.ClaimEvent? ==> ApplyOp(s, op).redis.claims == s.redis.claims
  {
    hide IncidentsOf;
  }

  lemma ReportOnCell(s: State, op: Op, tx: TxId)
    requires op.UpsertTransaction? || op.UpsertDetail? || op.CreateIncident?
    ensures CellOf(ApplyOp(s, op), tx) ==
            if Target(op) == Some(tx) then CellOp(CellOf(s, tx), op) else CellOf(s, tx)
    ensures ApplyOp(s, op).redis.claims == s.redis.claims
  {
    if op.CreateIncident? {
      var rows := s.pg.incidents;
      assert (rows + [NewIncidentRow(op.incident)])[..|rows|] == rows;
      if op.incident.tx != tx {
        assert IncidentsOf(rows, tx) + [] == IncidentsOf(rows, tx);
      }
    }
  }

  function CellApply(c: Cell, ops: seq<Op>): Cell
    decreases |ops|
  {
    if ops == [] then c else CellApply(CellOp(c, ops[0]), ops[1..])
  }

  predicate Mine(op: Op, tx: TxId) {
    !op.ClaimEvent? && (Target(op).None? || Target(op) == Some(tx))
  }

  /** Effects on one transaction only, none of which claims an event id. */
  predicate Own(ops: seq<Op>, tx: TxId)
    decreases |ops|
  {
    ops == [] || (Mine(ops[0], tx) && Own(ops[1..], tx))
  }

  lemma {:induction false} OwnMembers(ops: seq<Op>, tx: TxId)
    requires forall op <- ops :: Mine(op, tx)
    ensures Own(ops, tx)
    decreases |ops|
  {
    if ops == [] {
    } else {
      assert ops[0] in ops;
      OwnMembers(ops[1..], tx);
    }
  }

  lemma {:induction false} OwnConcat(a: seq<Op>, b: seq<Op>, tx: TxId)
    requires Own(a, tx) && Own(b, tx)
    ensures Own(a + b, tx)
    decreases |a|
  {
    if a == [] {
      assert a + b == b;
    } else {
      assert (a + b)[1..] == a[1..] + b;
      OwnConcat(a[1..], b, tx);
    }
  }

  lemma {:induction false} OwnPrefix(ops: seq<Op>, k: nat, tx: TxId)
    requires Own(ops, tx) && k <= |ops|
    ensures Own(ops[..k], tx)
    decreases k
  {
    if k == 0 {
    } else {
      assert ops[..k][1..] == ops[1..][..k - 1];
      OwnPrefix(ops[1..], k - 1, tx);
    }
  }

  lemma PerformedOwn(ops: seq<Op>, stop: Option<nat>, tx: TxId)
    requires Own(ops, tx)
    ensures Own(Performed(ops, stop), tx)
  {
    if stop.Some? {
      OwnPrefix(ops, StopIndex(ops, stop.value), tx);
    }
  }

  lemma {:induction false} ApplyOnCell(s: State, ops: seq<Op>, owner: TxId, tx: TxId)
    requires Own(ops, owner)
    ensures CellOf(Apply(s, ops), tx) == if tx == owner then CellApply(CellOf(s, tx), ops) else CellOf(s, tx)
    ensures Apply(s, ops).redis.claims == s.redis.claims
    decreases |ops|
  {
    hide ApplyOp, CellOf;
    if ops == [] {
    } else {
      OpOnCell(s, ops[0], tx);
      ApplyOnCell(ApplyOp(s, ops[0]), ops[1..], owner, tx);
    }
  }

  // ----- What the handlers' effects look like -----

  lemma {:induction false} PersistAllShape(cfg: Config, incidents: seq<Incident>, now: int)
    ensures forall op <- PersistAllOps(cfg, incidents, now) ::
              op.Publish? || op.AddEscalation? || (op.CreateIncident? && op.incident in incidents)
  {
    if incidents == [] {
    } else {
      PersistAllShape(cfg, incidents[1..], now);
    }
  }

  lemma {:induction false} DetailShape(tx: TxId, details: seq<Detail>)
    ensures forall op <- DetailOps(tx, details) :: op.UpsertDetail? && op.tx == tx && op.detail in details
  {
    if details == [] {
    } else {
      DetailShape(tx, details[1..]);
    }
  }

  lemma VerdictShape(cfg: Config, w: Window, env: Env)
    ensures forall op <- VerdictOps(cfg, w, env) ::
              || op.Publish? || op.AddEscalation? || op.RecordMatch?
              || (op.CreateIncident? && op.incident.tx == w.tx)
  {
    match CheckInvariants(w)
    case Matched =>
    case Mismatched(incidents) => PersistAllShape(cfg, incidents, env.now);
  }

  predicate Keyed(s: State) {
    forall tx <- s.windows :: s.windows[tx].tx == tx
  }

  lemma {:induction false} ApplyKeepsKeyed(s: State, ops: seq<Op>)
    requires Keyed(s)
    ensures Keyed(Apply(s, ops))
    decreases |ops|
  {
    if ops == [] {
    } else {
      ApplyKeepsKeyed(ApplyOp(s, ops[0]), ops[1..]);
    }
  }

  lemma DetailsOwn(tx: TxId, details: seq<Detail>)
    ensures Own(DetailOps(tx, details), tx)
  {
    DetailShape(tx, details);
    OwnMembers(DetailOps(tx, details), tx);
  }

  lemma VerdictOwn(cfg: Config, w: Window, env: Env)
    ensures Own(VerdictOps(cfg, w, env), w.tx)
  {
    VerdictShape(cfg, w, env);
    OwnMembers(VerdictOps(cfg, w, env), w.tx);
  }

  lemma CleanupOwn(tx: TxId)
    ensures Own(CleanupOps(tx), tx)
  {
    OwnMembers(CleanupOps(tx), tx);
  }

  lemma PersistIncidentOwn(cfg: Config, incident: Incident, now: int)
    ensures Own(PersistIncidentOps(cfg, incident, now), incident.tx)
  {
    OwnMembers(PersistIncidentOps(cfg, incident, now), incident.tx);
  }

  lemma FinalizeOwn(cfg: Config, w: Window, env: Env)
    ensures Own(FinalizeOps(cfg, w, env), w.tx)
  {
    var upsert, details := [UpsertTransaction(w.tx, FinalRow(w, env))], DetailOps(w.tx, BuildDetails(w));
    var verdict, cleanup := VerdictOps(cfg, w, env), CleanupOps(w.tx);
    DetailsOwn(w.tx, BuildDetails(w));
    OwnConcat(upsert, details, w.tx);
    VerdictOwn(cfg, w, env);
    OwnConcat(upsert + details, verdict, w.tx);
    CleanupOwn(w.tx);
    OwnConcat(upsert + details + verdict, cleanup, w.tx);
  }

  lemma DegradeOwn(cfg: Config, tx: TxId, w: Window, env: Env)
    ensures Own(DegradeOps(cfg, tx, w, env), tx)
  {
    var upsert, details := [UpsertTransaction(tx, DegradedRow(w, env))], DetailOps(tx, BuildDetails(w));
    var incident := PersistIncidentOps(cfg, MissingIncident(tx, w), env.now);
    DetailsOwn(tx, BuildDetails(w));
    OwnConcat(upsert, details, tx);
    PersistIncidentOwn(cfg, MissingIncident(tx, w), env.now);
    OwnConcat(upsert + details, incident, tx);
    CleanupOwn(tx);
    OwnConcat(upsert + details + incident, CleanupOps(tx), tx);
  }

  lemma OpenOwn(cfg: Config, open: Option<Window>, d: Delivery)
    requires open.Some? ==> open.value.tx == d.event.tx
    ensures Own(OpenOps(cfg, open, d), d.event.tx)
  {
    OwnMembers(OpenOps(cfg, open, d), d.event.tx);
  }

  lemma ProgressOwn(w: Window, env: Env)
    ensures Own([SetWindow(w), SaveWindow(w)], w.tx) && Own(ProgressOps(w, env), w.tx)
  {
    OwnMembers([SetWindow(w), SaveWindow(w)], w.tx);
    OwnMembers(ProgressOps(w, env), w.tx);
  }

  lemma ProcessedOwn(up: bool, tx: TxId)
    ensures Own(ProcessedMetric(up), tx)
  {
    OwnMembers(ProcessedMetric(up), tx);
  }

  lemma ArrivalOwn(cfg: Config, open: Option<Window>, d: Delivery)
    requires open.Some? ==> open.value.tx == d.event.tx
    ensures Own(ArrivalOps(cfg, open, d), d.event.tx)
  {
    hide Own, OpenOps, FinalizeOps, ProgressOps, ProcessedMetric, IsComplete;
    var w, tx := Extended(cfg, open, d), d.event.tx;
    var first, second, third := OpenOps(cfg, open, d), [SetWindow(w), SaveWindow(w)], ResultOps(cfg, w, d.env);
    OpenOwn(cfg, open, d);
    ProgressOwn(w, d.env);
    OwnConcat(first, second, tx);
    FinalizeOwn(cfg, Timed(w, d.env.elapsed), d.env);
    OwnConcat(first + second, third, tx);
    ProcessedOwn(d.env.processedUp, tx);
    OwnConcat(first + second + third, ProcessedMetric(d.env.processedUp), tx);
  }

  lemma DuplicateOwn(cfg: Config, d: Delivery)
    ensures Own(DuplicateOps(cfg, d), d.event.tx)
  {
    var e := d.event;
    var first := [UpsertTransaction(e.tx, TxRow(Pending, e.currency, e.txType, e.merchantId, 0))];
    var second := PersistIncidentOps(cfg, DuplicateIncident(e), d.env.now);
    PersistIncidentOwn(cfg, DuplicateIncident(e), d.env.now);
    OwnConcat(first, second, e.tx);
    ProcessedOwn(d.env.processedUp, e.tx);
    OwnConcat(first + second, ProcessedMetric(d.env.processedUp), e.tx);
  }

  lemma EventOwn(cfg: Config, registered: bool, open: Option<Window>, d: Delivery)
    requires open.Some? ==> open.value.tx == d.event.tx
    ensures Own(NewEventOps(cfg, registered, open, d), d.event.tx)
  {
    var tx := d.event.tx;
    var first := [RegisterSource(tx, d.event.source), TouchSources(tx)];
    OwnMembers(first, tx);
    if registered {
      DuplicateOwn(cfg, d);
      OwnConcat(first, DuplicateOps(cfg, d), tx);
    } else {
      ArrivalOwn(cfg, open, d);
      OwnConcat(first, ArrivalOps(cfg, open, d), tx);
    }
  }

  lemma TimeoutOwn(cfg: Config, tx: TxId, open: Option<Window>, env: Env)
    requires open.Some? ==> open.value.tx == tx
    ensures Own(TimeoutOps(cfg, tx, open, env), tx)
  {
    if open.Some? {
      FinalizeOwn(cfg, open.value, env);
      DegradeOwn(cfg, tx, open.value, env);
      OwnMembers([RemoveWindow(tx)], tx);
      OwnConcat([RemoveWindow(tx)],
                if IsComplete(open.value) then FinalizeOps(cfg, open.value, env)
                else DegradeOps(cfg, tx, open.value, env), tx);
    }
  }

  // ----- Steps -----

  function ActionTx(a: Action): Option<TxId> {
    match a
    case Deliver(d, _) => Some(d.event.tx)
    case PopDeadline(tx) => Some(tx)
    case Timeout(tx, _, _) => Some(tx)
    case _ => None
  }

  function CellStep(cfg: Config, c: Cell, claimed: bool, a: Action): Cell {
    match a
    case Deliver(d, stop) =>
      CellApply(c, Performed(EventOps(cfg, claimed, d.event.source in OrEmpty(c.sources), c.window, d), stop))
    case PopDeadline(_) =>
      if c.deadline.None? then c else c.(deadline := None, popped := c.popped + 1)
    case Timeout(tx, env, stop) =>
      if c.popped == 0 then c
      else CellApply(c.(popped := c.popped - 1), Performed(TimeoutOps(cfg, tx, c.window, env), stop))
    case _ => c
  }

  predicate AlreadyClaimed(s: State, a: Action) {
    a.Deliver? && a.d.event.eventId in s.redis.claims
  }

  /** A delivery claims its event id unless the claim itself failed. */
  function ClaimedBy(a: Action): set<EventId> {
    if a.Deliver? && a.stop != Some(0) then {a.d.event.eventId} else {}
  }

  lemma {:induction false} SameIncidentsAfterUpdate(rows: seq<IncidentRow>, id: nat, row: IncidentRow, tx: TxId)
    requires id < |rows| && row.incident == rows[id].incident
    ensures IncidentsOf(rows[id := row], tx) == IncidentsOf(rows, tx)
    decreases |rows|
  {
    var last := |rows| - 1;
    if id == last {
      assert rows[id := row][..last] == rows[..last];
    } else {
      assert rows[id := row][..last] == rows[..last][id := row];
      SameIncidentsAfterUpdate(rows[..last], id, row, tx);
    }
  }

  lemma DeliverOnCell(cfg: Config, s: State, d: Delivery, stop: Option<nat>, tx: TxId)
    requires Keyed(s)
    ensures var a := Deliver(d, stop);
            && CellOf(Step(cfg, s, a), tx) ==
               (if d.event.tx == tx then CellStep(cfg, CellOf(s, tx), d.event.eventId in s.redis.claims, a)
                else CellOf(s, tx))
            && Step(cfg, s, a).redis.claims == s.redis.claims + ClaimedBy(a)
  {
    hide IncidentsOf, ApplyOp, NewEventOps, Own;
    var id, open := d.event.eventId, Lookup(s.windows, d.event.tx);
    var ops := DeliverOps(cfg, s, d);
    var done := Performed(ops, stop);
    if id in s.redis.claims {
      assert done == [];
    } else {
      var rest := NewEventOps(cfg, Registered(s, d.event), open, d);
      assert ops == [ClaimEvent(id)] + rest;
      assert done == [] <==> stop == Some(0);
      if done != [] {
        assert done[0] == ClaimEvent(id) && done[1..] == rest[..|done| - 1];
        EventOwn(cfg, Registered(s, d.event), open, d);
        OwnPrefix(rest, |done| - 1, d.event.tx);
        OpOnCell(s, done[0], tx);
        ApplyOnCell(ApplyOp(s, done[0]), done[1..], d.event.tx, tx);
        assert ApplyOp(s, done[0]).redis.claims == s.redis.claims + {id} by { ClaimOp(s, id); }
        assert CellApply(CellOf(s, tx), done) == CellApply(CellOp(CellOf(s, tx), done[0]), done[1..]);
      }
    }
  }

  lemma ClaimOp(s: State, id: EventId)
    ensures ApplyOp(s, ClaimEvent(id)).redis.claims == s.redis.claims + {id}
  {}

  lemma TimeoutOnCell(cfg: Config, s: State, t: TxId, env: Env, stop: Option<nat>, tx: TxId)
    requires Keyed(s)
    ensures var a := Timeout(t, env, stop);
            && CellOf(Step(cfg, s, a), tx) ==
               (if t == tx then CellStep(cfg, CellOf(s, tx), false, a) else CellOf(s, tx))
            && Step(cfg, s, a).redis.claims == s.redis.claims
  {
    hide TimeoutOps, Own, IncidentsOf, Apply, CellApply, Performed, StopIndex;
    if t in s.popped {
      var ops := TimeoutOps(cfg, t, Lookup(s.windows, t), env);
      TimeoutOwn(cfg, t, Lookup(s.windows, t), env);
      PerformedOwn(ops, stop, t);
      ApplyOnCell(s.(popped := s.popped - multiset{t}), Performed(ops, stop), t, tx);
    }
  }

  lemma RowOnCell(s: State, id: IncidentId, row: IncidentRow, now: int, tx: TxId)
    requires id < |s.pg.incidents| && row == s.pg.incidents[id]
    ensures forall next <- [EscalatedRow(row, now), AcknowledgedRow(row, now), ResolvedRow(row, now)] ::
              && CellOf(WithRow(s, id, next), tx) == CellOf(s, tx)
              && WithRow(s, id, next).redis == s.redis
  {
    forall next <- [EscalatedRow(row, now), AcknowledgedRow(row, now), ResolvedRow(row, now)]
      ensures CellOf(WithRow(s, id, next), tx) == CellOf(s, tx)
    {
      SameIncidentsAfterUpdate(s.pg.incidents, id, next, tx);
    }
  }

  lemma StepOnCell(cfg: Config, s: State, a: Action, tx: TxId)
    requires Keyed(s)
    ensures CellOf(Step(cfg, s, a), tx) ==
            if ActionTx(a) == Some(tx) then CellStep(cfg, CellOf(s, tx), AlreadyClaimed(s, a), a) else CellOf(s, tx)
    ensures Step(cfg, s, a).redis.claims == s.redis.claims + ClaimedBy(a)
  {
    hide IncidentsOf, DeliverOps, EventOps, TimeoutStep, TimeoutOps, Apply, CellApply, Performed, WithRow,
         EscalatedRow, AcknowledgedRow, ResolvedRow;
    match a
    case Deliver(d, stop) => DeliverOnCell(cfg, s, d, stop, tx);
    case PopDeadline(_) =>
    case Timeout(t, env, stop) => TimeoutOnCell(cfg, s, t, env, stop, tx);
    case PopEscalation(_) =>
    case Escalate(id, now, up) =>
      if id < |s.pg.incidents| {
        RowOnCell(s.(poppedEscalations := s.poppedEscalations - multiset{id}), id, s.pg.incidents[id], now, tx);
      }
    case Acknowledge(id, now) =>
      if id < |s.pg.incidents| { RowOnCell(s, id, s.pg.incidents[id], now, tx); }
    case Resolve(id, now) =>
      if id < |s.pg.incidents| { RowOnCell(s, id, s.pg.incidents[id], now, tx); }
  }

  lemma StepKeepsKeyed(cfg: Config, s: State, a: Action)
    requires Keyed(s)
    ensures Keyed(Step(cfg, s, a))
  {
    match a
    case Deliver(d, stop) => ApplyKeepsKeyed(s, Performed(DeliverOps(cfg, s, d), stop));
    case Timeout(t, env, stop) =>
      if t in s.popped {
        ApplyKeepsKeyed(s.(popped := s.popped - multiset{t}),
                        Performed(TimeoutOps(cfg, t, Lookup(s.windows, t), env), stop));
      }
    case _ =>
  }

  // ----- Projection -----

  function Only(actions: seq<Action>, tx: TxId): seq<Action> {
    if actions == [] then []
    else (if ActionTx(actions[0]) == Some(tx) then [actions[0]] else []) + Only(actions[1..], tx)
  }

  /** Every delivered event id belongs to one transaction. */
  ghost predicate OwnedIds(actions: seq<Action>, owner: EventId -> TxId) {
    forall a <- actions :: a.Deliver? ==> owner(a.d.event.eventId) == a.d.event.tx
  }

  ghost predicate SameFor(s: State, t: State, owner: EventId -> TxId, tx: TxId) {
    && CellOf(s, tx) == CellOf(t, tx)
    && forall id :: owner(id) == tx ==> (id in s.redis.claims <==> id in t.redis.claims)
  }

  /** Deleting every step of every other transaction, failed ones included, does not change
      what one transaction's window, source set, checkpoint, deadline, row, details and
      incidents are at the end. */
  lemma {:induction false} Projection(
      cfg: Config, s: State, t: State, actions: seq<Action>, owner: EventId -> TxId, tx: TxId)
    requires Keyed(s) && Keyed(t) && OwnedIds(actions, owner) && SameFor(s, t, owner, tx)
    ensures SameFor(Run(cfg, s, actions), Run(cfg, t, Only(actions, tx)), owner, tx)
    decreases |actions|
  {
    if actions == [] {
    } else {
      var a := actions[0];
      assert a in actions;
      StepOnCell(cfg, s, a, tx);
      StepKeepsKeyed(cfg, s, a);
      if ActionTx(a) == Some(tx) {
        StepOnCell(cfg, t, a, tx);
        StepKeepsKeyed(cfg, t, a);
        Projection(cfg, Step(cfg, s, a), Step(cfg, t, a), actions[1..], owner, tx);
        assert Only(actions, tx)[1..] == Only(actions[1..], tx);
      } else {
        Projection(cfg, Step(cfg, s, a), t, actions[1..], owner, tx);
        assert Only(actions, tx) == Only(actions[1..], tx);
      }
    }
  }
}
