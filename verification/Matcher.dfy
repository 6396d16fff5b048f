/** matcher/src/matcher.rs: the engine's handlers as sequences of effects, and runs of the engine. */
module Matcher {
  import opened Wrappers
  import opened Model
  import opened Store

  datatype Config = Config(timeoutMs: nat, escalationMs: nat)

  /** The order in which a HashMap happens to iterate over its keys. */
  type HashOrder = o: seq<Source> | Merchant in o && Gateway in o && Bank in o witness [Merchant, Gateway, Bank]

  function FirstIn(events: map<Source, PaymentEvent>, order: seq<Source>): Option<PaymentEvent> {
    if order == [] then None
    else if order[0] in events then Some(events[order[0]])
    else FirstIn(events, order[1..])
  }

  /** What one call reads from its environment: the clock (once a call), measured durations,
      the hash order and whether the two metrics commands went through. */
  datatype Env = Env(
    now: int, elapsed: int, finalizeElapsed: int, order: HashOrder,
    processedUp: bool, matchUp: bool)

  datatype Delivery = Delivery(event: PaymentEvent, env: Env)

  function MerchantIdOf(events: map<Source, PaymentEvent>): Option<string> {
    if Merchant in events then events[Merchant].merchantId else None
  }

  function PersistIncidentOps(cfg: Config, incident: Incident, now: int): seq<Op> {
    [CreateIncident(incident)] +
    (if incident.severity == 1 then [AddEscalation(now + cfg.escalationMs)] else []) +
    [Publish]
  }

  function PersistAllOps(cfg: Config, incidents: seq<Incident>, now: int): seq<Op> {
    if incidents == [] then []
    else PersistIncidentOps(cfg, incidents[0], now) + PersistAllOps(cfg, incidents[1..], now)
  }

  function DetailOps(tx: TxId, details: seq<Detail>): seq<Op> {
    if details == [] then [] else [UpsertDetail(tx, details[0])] + DetailOps(tx, details[1..])
  }

  function CleanupOps(tx: TxId): seq<Op> {
    [RemoveWindow(tx), DeleteWindow(tx), RemoveDeadline(tx), CleanupSources(tx)]
  }

  function MatchMetric(success: bool, up: bool): seq<Op> {
    if up then [RecordMatch(success)] else []
  }

  function ProcessedMetric(up: bool): seq<Op> {
    if up then [RecordProcessed] else []
  }

  function FinalRow(w: Window, env: Env): TxRow {
    var leader := if Merchant in w.events then Some(w.events[Merchant]) else FirstIn(w.events, env.order);
    TxRow(if CheckInvariants(w).Matched? then MatchedStatus else MismatchStatus,
          if leader.Some? then leader.value.currency else "UZS",
          if leader.Some? then leader.value.txType else "card",
          MerchantIdOf(w.events), w.micros + env.finalizeElapsed)
  }

  function VerdictOps(cfg: Config, w: Window, env: Env): seq<Op> {
    match CheckInvariants(w)
    case Matched => MatchMetric(true, env.matchUp) + [Publish]
    case Mismatched(incidents) => MatchMetric(false, env.matchUp) + PersistAllOps(cfg, incidents, env.now)
  }

  function FinalizeOps(cfg: Config, w: Window, env: Env): seq<Op> {
    [UpsertTransaction(w.tx, FinalRow(w, env))] + DetailOps(w.tx, BuildDetails(w)) +
    VerdictOps(cfg, w, env) + CleanupOps(w.tx)
  }

  function DuplicateIncident(e: PaymentEvent): Incident {
    Incident(e.tx, Duplicate, 1, [e.source])
  }

  function DuplicateOps(cfg: Config, d: Delivery): seq<Op> {
    [UpsertTransaction(d.event.tx, TxRow(Pending, d.event.currency, d.event.txType, d.event.merchantId, 0))] +
    PersistIncidentOps(cfg, DuplicateIncident(d.event), d.env.now) +
    ProcessedMetric(d.env.processedUp)
  }

  /** The window that the event joins, before it joins. */
  function Joined(cfg: Config, open: Option<Window>, d: Delivery): Window {
    if open.Some? then open.value else NewWindow(d.event.tx, d.env.now, cfg.timeoutMs)
  }

  function Extended(cfg: Config, open: Option<Window>, d: Delivery): Window {
    var w := Joined(cfg, open, d);
    w.(events := w.events[d.event.source := d.event])
  }

  function Timed(w: Window, elapsed: int): Window {
    w.(micros := w.micros + elapsed)
  }

  function OpenOps(cfg: Config, open: Option<Window>, d: Delivery): seq<Op> {
    var w := Joined(cfg, open, d);
    (if open.None? then [SetWindow(w)] else []) +
    (if w.events == map[] then [AddDeadline(d.event.tx, w.deadline), Publish] else [])
  }

  function ProgressOps(w: Window, env: Env): seq<Op> {
    [Publish, SetWindow(Timed(w, env.elapsed)), SaveWindow(Timed(w, env.elapsed))]
  }

  /** The last part of an arrival's effects: the verdict, or the progress report. */
  function ResultOps(cfg: Config, w: Window, env: Env): seq<Op> {
    if IsComplete(w) then FinalizeOps(cfg, Timed(w, env.elapsed), env) else ProgressOps(w, env)
  }

  function ArrivalOps(cfg: Config, open: Option<Window>, d: Delivery): seq<Op> {
    var w := Extended(cfg, open, d);
    OpenOps(cfg, open, d) + [SetWindow(w), SaveWindow(w)] +
    ResultOps(cfg, w, d.env) + ProcessedMetric(d.env.processedUp)
  }

  function NewEventOps(cfg: Config, registered: bool, open: Option<Window>, d: Delivery): seq<Op> {
    [RegisterSource(d.event.tx, d.event.source), TouchSources(d.event.tx)] +
    (if registered then DuplicateOps(cfg, d) else ArrivalOps(cfg, open, d))
  }

  /** handle_event. An event id that is already claimed has no effect at all. */
  function EventOps(cfg: Config, claimed: bool, registered: bool, open: Option<Window>, d: Delivery): seq<Op> {
    if claimed then [] else [ClaimEvent(d.event.eventId)] + NewEventOps(cfg, registered, open, d)
  }

  function DegradedRow(w: Window, env: Env): TxRow {
    var leader := FirstIn(w.events, env.order);
    TxRow(DegradedStatus,
          if leader.Some? then leader.value.currency else "UZS",
          if leader.Some? then leader.value.txType else "card",
          MerchantIdOf(w.events), 0)
  }

  function MissingIncident(tx: TxId, w: Window): Incident {
    Incident(tx, MissingSource, 1, MissingSources(w.events))
  }

  function DegradeOps(cfg: Config, tx: TxId, w: Window, env: Env): seq<Op> {
    [UpsertTransaction(tx, DegradedRow(w, env))] + DetailOps(tx, BuildDetails(w)) +
    PersistIncidentOps(cfg, MissingIncident(tx, w), env.now) + CleanupOps(tx)
  }

  /** handle_timeout. */
  function TimeoutOps(cfg: Config, tx: TxId, open: Option<Window>, env: Env): seq<Op> {
    if open.None? then []
    else
      [RemoveWindow(tx)] +
      (if IsComplete(open.value) then FinalizeOps(cfg, open.value, env)
       else DegradeOps(cfg, tx, open.value, env))
  }

  // ----- Steps and runs -----

  /** `stop` is None when the call completed; otherwise the call failed at its first fallible
      effect at or after that position, having performed everything before it. */
  datatype Action =
    | Deliver(d: Delivery, stop: Option<nat>)
    | PopDeadline(tx: TxId)
    | Timeout(tx: TxId, env: Env, stop: Option<nat>)
    | PopEscalation(id: IncidentId)
    | Escalate(id: IncidentId, now: int, up: bool)
    | Acknowledge(id: IncidentId, now: int)
    | Resolve(id: IncidentId, now: int)

  function StopIndex(ops: seq<Op>, k: nat): (i: nat)
    ensures i <= |ops|
    ensures i < |ops| ==> k <= i && Fallible(ops[i])
    decreases |ops| - k
  {
    if k >= |ops| then |ops| else if Fallible(ops[k]) then k else StopIndex(ops, k + 1)
  }

  function Performed(ops: seq<Op>, stop: Option<nat>): seq<Op> {
    if stop.None? then ops else ops[..StopIndex(ops, stop.value)]
  }

  /** A call that stops does so at the first fallible effect from the given position on, and
      completes if there is none. */
  lemma {:induction false} StopIndexIsFirst(ops: seq<Op>, k: nat)
    requires k <= |ops|
    ensures var i := StopIndex(ops, k);
            && k <= i <= |ops| && (i < |ops| ==> Fallible(ops[i]))
            && forall j | k <= j < i :: !Fallible(ops[j])
    decreases |ops| - k
  {
    if k == |ops| || Fallible(ops[k]) {
    } else {
      StopIndexIsFirst(ops, k + 1);
    }
  }

  predicate Registered(s: State, e: PaymentEvent) {
    e.source in OrEmpty(Lookup(s.redis.sources, e.tx))
  }

  function DeliverOps(cfg: Config, s: State, d: Delivery): seq<Op> {
    EventOps(cfg, d.event.eventId in s.redis.claims, Registered(s, d.event), Lookup(s.windows, d.event.tx), d)
  }

  /** ZREM by the timer task: the id is handed on only if this call removed it. */
  function PopDeadlineStep(s: State, tx: TxId): State {
    if tx !in s.redis.deadlines then s
    else s.(redis := s.redis.(deadlines := s.redis.deadlines - {tx}), popped := s.popped + multiset{tx})
  }

  function PopEscalationStep(s: State, id: IncidentId): State {
    if id !in s.redis.escalations then s
    else s.(redis := s.redis.(escalations := s.redis.escalations - {id}),
            poppedEscalations := s.poppedEscalations + multiset{id})
  }

  /** Escalation only touches a row that is open and of severity below 2. */
  function EscalatedRow(row: IncidentRow, now: int): IncidentRow {
    if row.status == Open && row.severity < 2 then row.(severity := 2, escalatedAt := Some(now)) else row
  }

  function AcknowledgedRow(row: IncidentRow, now: int): IncidentRow {
    if row.status == Open then row.(status := Acknowledged, acknowledgedAt := Some(now)) else row
  }

  function ResolvedRow(row: IncidentRow, now: int): IncidentRow {
    if row.status == Open || row.status == Acknowledged then row.(status := Resolved, resolvedAt := Some(now))
    else row
  }

  function WithRow(s: State, id: IncidentId, row: IncidentRow): State
    requires id < |s.pg.incidents|
  {
    s.(pg := s.pg.(incidents := s.pg.incidents[id := row]))
  }

  function EscalateStep(s: State, id: IncidentId, now: int, up: bool): State {
    if id !in s.poppedEscalations then s
    else
      var t := s.(poppedEscalations := s.poppedEscalations - multiset{id});
      if !up || id >= |s.pg.incidents| then t else WithRow(t, id, EscalatedRow(s.pg.incidents[id], now))
  }

  function TimeoutStep(cfg: Config, s: State, tx: TxId, env: Env, stop: Option<nat>): State {
    if tx !in s.popped then s
    else Apply(s.(popped := s.popped - multiset{tx}),
               Performed(TimeoutOps(cfg, tx, Lookup(s.windows, tx), env), stop))
  }

  function Step(cfg: Config, s: State, a: Action): State {
    match a
    case Deliver(d, stop) => Apply(s, Performed(DeliverOps(cfg, s, d), stop))
    case PopDeadline(tx) => PopDeadlineStep(s, tx)
    case Timeout(tx, env, stop) => TimeoutStep(cfg, s, tx, env, stop)
    case PopEscalation(id) => PopEscalationStep(s, id)
    case Escalate(id, now, up) => EscalateStep(s, id, now, up)
    case Acknowledge(id, now) =>
      if id < |s.pg.incidents| then WithRow(s, id, AcknowledgedRow(s.pg.incidents[id], now)) else s
    case Resolve(id, now) =>
      if id < |s.pg.incidents| then WithRow(s, id, ResolvedRow(s.pg.incidents[id], now)) else s
  }

  function Run(cfg: Config, s: State, actions: seq<Action>): State
    decreases |actions|
  {
    if actions == [] then s else Run(cfg, Step(cfg, s, actions[0]), actions[1..])
  }

  /** No store command of the step failed. */
  predicate Clean(a: Action) {
    match a
    case Deliver(d, stop) => stop.None? && d.env.processedUp && d.env.matchUp
    case Timeout(_, env, stop) => stop.None? && env.processedUp && env.matchUp
    case Escalate(_, _, up) => up
    case _ => true
  }

  predicate AllClean(actions: seq<Action>) {
    forall a <- actions :: Clean(a)
  }

  lemma {:induction false} RunConcat(cfg: Config, s: State, a: seq<Action>, b: seq<Action>)
    ensures Run(cfg, s, a + b) == Run(cfg, Run(cfg, s, a), b)
    decreases |a|
  {
    if a == [] {
      assert a + b == b;
    } else {
      assert (a + b)[1..] == a[1..] + b;
      RunConcat(cfg, Step(cfg, s, a[0]), a[1..], b);
    }
  }

  lemma RunSnoc(cfg: Config, s: State, a: seq<Action>, last: Action)
    ensures Run(cfg, s, a + [last]) == Step(cfg, Run(cfg, s, a), last)
  {
    RunConcat(cfg, s, a, [last]);
    var t := Run(cfg, s, a);
    assert Run(cfg, t, [last]) == Run(cfg, Step(cfg, t, last), [last][1..]);
  }
}
