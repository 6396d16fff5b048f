/** matcher/src/store.rs: what Redis and Postgres hold for the engine, and the effect of each
    command the engine issues. Expiry is added on top of this in module Expiry. */
module Store {
  import opened Wrappers
  import opened Model

  type IncidentId = nat

  datatype Redis = Redis(
    claims: set<EventId>,
    sources: map<TxId, set<Source>>,
    checkpoints: map<TxId, Window>,
    deadlines: map<TxId, int>,
    escalations: map<IncidentId, int>,
    processed: nat, matched: nat, mismatched: nat)

  datatype OverallStatus = Pending | MatchedStatus | MismatchStatus | DegradedStatus

  datatype TxRow = TxRow(
    status: OverallStatus, currency: string, txType: string, merchantId: Option<string>, micros: int)

  datatype IncidentStatus = Open | Acknowledged | Resolved

  /** `incident` is what was inserted; the other columns belong to the lifecycle. */
  datatype IncidentRow = IncidentRow(
    incident: Incident, status: IncidentStatus, severity: int,
    acknowledgedAt: Option<int>, resolvedAt: Option<int>, escalatedAt: Option<int>)

  /** The id of an incident is its position in insertion order. */
  datatype Postgres = Postgres(
    transactions: map<TxId, TxRow>,
    details: map<TxId, map<Source, Detail>>,
    incidents: seq<IncidentRow>)

  /** Everything the engine reads or writes between two steps. `popped` and `poppedEscalations`
      hold the ids a timer pass has taken out of a sorted set and not handled yet. */
  datatype State = State(
    windows: map<TxId, Window>, redis: Redis, pg: Postgres,
    popped: multiset<TxId>, poppedEscalations: multiset<IncidentId>)

  const EMPTY_REDIS := Redis({}, map[], map[], map[], map[], 0, 0, 0)
  const INIT := State(map[], EMPTY_REDIS, Postgres(map[], map[], []), multiset{}, multiset{})

  /** One effect of a handler, in the order in which the handlers perform them. */
  datatype Op =
    | ClaimEvent(id: EventId)
    | RegisterSource(tx: TxId, source: Source)
    | TouchSources(tx: TxId)
    | AddDeadline(tx: TxId, at: int)
    | Publish
    | SetWindow(window: Window)
    | SaveWindow(window: Window)
    | UpsertTransaction(tx: TxId, row: TxRow)
    | UpsertDetail(tx: TxId, detail: Detail)
    | RecordProcessed
    | RecordMatch(success: bool)
    | CreateIncident(incident: Incident)
    | AddEscalation(at: int) // of the incident created last
    | RemoveWindow(tx: TxId)
    | DeleteWindow(tx: TxId)
    | RemoveDeadline(tx: TxId)
    | CleanupSources(tx: TxId)

  /** Map updates in memory cannot fail, and errors of the two metrics commands are ignored;
      every other effect is followed by `?` in the engine. */
  predicate Fallible(op: Op) {
    !op.SetWindow? && !op.RemoveWindow? && !op.RecordProcessed? && !op.RecordMatch?
  }

  function OrEmpty<T>(s: Option<set<T>>): set<T> {
    if s.Some? then s.value else {}
  }

  function RowsOf(rows: Option<map<Source, Detail>>): map<Source, Detail> {
    if rows.Some? then rows.value else map[]
  }

  /** ON CONFLICT keeps the first insert's currency, type and merchant. */
  function Upserted(existing: Option<TxRow>, row: TxRow): TxRow {
    if existing.Some? then existing.value.(status := row.status, micros := row.micros) else row
  }

  function NewIncidentRow(incident: Incident): IncidentRow {
    IncidentRow(incident, Open, incident.severity, None, None, None)
  }

  function RedisOp(r: Redis, op: Op, lastIncident: int): Redis {
    match op
    case ClaimEvent(id) => r.(claims := r.claims + {id})
    case RegisterSource(tx, src) => r.(sources := r.sources[tx := OrEmpty(Lookup(r.sources, tx)) + {src}])
    case AddDeadline(tx, at) => r.(deadlines := r.deadlines[tx := at])
    case SaveWindow(w) => r.(checkpoints := r.checkpoints[w.tx := w])
    case RecordProcessed => r.(processed := r.processed + 1)
    case RecordMatch(success) =>
      if success then r.(matched := r.matched + 1) else r.(mismatched := r.mismatched + 1)
    case AddEscalation(at) =>
      if lastIncident >= 0 then r.(escalations := r.escalations[lastIncident := at]) else r
    case DeleteWindow(tx) => r.(checkpoints := r.checkpoints - {tx})
    case RemoveDeadline(tx) => r.(deadlines := r.deadlines - {tx})
    case CleanupSources(tx) => r.(sources := r.sources - {tx})
    case _ => r
  }

  function PostgresOp(p: Postgres, op: Op): Postgres {
    match op
    case UpsertTransaction(tx, row) =>
      p.(transactions := p.transactions[tx := Upserted(Lookup(p.transactions, tx), row)])
    case UpsertDetail(tx, detail) =>
      p.(details := p.details[tx := RowsOf(Lookup(p.details, tx))[detail.source := detail]])
    case CreateIncident(incident) => p.(incidents := p.incidents + [NewIncidentRow(incident)])
    case _ => p
  }

  function MemoryOp(windows: map<TxId, Window>, op: Op): map<TxId, Window> {
    match op
    case SetWindow(w) => windows[w.tx := w]
    case RemoveWindow(tx) => windows - {tx}
    case _ => windows
  }

  function ApplyOp(s: State, op: Op): State {
    s.(windows := MemoryOp(s.windows, op),
       redis := RedisOp(s.redis, op, |s.pg.incidents| - 1),
       pg := PostgresOp(s.pg, op))
  }

  function Apply(s: State, ops: seq<Op>): State
    decreases |ops|
  {
    if ops == [] then s else Apply(ApplyOp(s, ops[0]), ops[1..])
  }

  lemma {:induction false} ApplyConcat(s: State, a: seq<Op>, b: seq<Op>)
    ensures Apply(s, a + b) == Apply(Apply(s, a), b)
    decreases |a|
  {
    if a == [] {
      assert a + b == b;
    } else {
      assert (a + b)[1..] == a[1..] + b;
      ApplyConcat(ApplyOp(s, a[0]), a[1..], b);
    }
  }

  lemma ApplySnoc(s: State, a: seq<Op>, op: Op)
    ensures Apply(s, a + [op]) == ApplyOp(Apply(s, a), op)
  {
    ApplyConcat(s, a, [op]);
    var t := Apply(s, a);
    assert Apply(t, [op]) == Apply(ApplyOp(t, op), [op][1..]);
  }
}
