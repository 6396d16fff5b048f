/** The columns of a transaction row that only its first insert writes. */
module Columns {
  import opened Wrappers
  import opened Model
  import opened Store
  import opened Matcher
  import opened Cells
  import opened Coherence

  datatype Columns = Columns(currency: string, txType: string, merchantId: Option<string>)

  function ColumnsOf(row: TxRow): Columns {
    Columns(row.currency, row.txType, row.merchantId)
  }

  function EventColumns(e: PaymentEvent): Columns {
    Columns(e.currency, e.txType, e.merchantId)
  }

  // ----- They never change -----

  lemma {:induction false} EffectsKeepColumns(c: Cell, ops: seq<Op>)
    requires c.row.Some?
    ensures var x := CellApply(c, ops); x.row.Some? && ColumnsOf(x.row.value) == ColumnsOf(c.row.value)
    decreases |ops|
  {
    if ops == [] {
    } else {
      EffectsKeepColumns(CellOp(c, ops[0]), ops[1..]);
    }
  }

  lemma StepKeepsColumns(cfg: Config, s: State, a: Action, tx: TxId)
    requires Keyed(s) && tx in s.pg.transactions
    ensures var t := Step(cfg, s, a);
            tx in t.pg.transactions && ColumnsOf(t.pg.transactions[tx]) == ColumnsOf(s.pg.transactions[tx])
  {
    hide Step, CellApply, EventOps, TimeoutOps, Performed, IncidentsOf;
    var c := CellOf(s, tx);
    StepOnCell(cfg, s, a, tx);
    match a
    case Deliver(d, stop) =>
      EffectsKeepColumns(c, Performed(EventOps(cfg, AlreadyClaimed(s, a), Repeats(c, d.event), c.window, d), stop));
    case Timeout(_, env, stop) =>
      if c.popped > 0 {
        EffectsKeepColumns(c.(popped := c.popped - 1), Performed(TimeoutOps(cfg, a.tx, c.window, env), stop));
      }
    case _ =>
  }

  lemma {:induction false} RunKeepsColumns(cfg: Config, s: State, actions: seq<Action>, tx: TxId)
    requires Keyed(s) && tx in s.pg.transactions
    ensures var t := Run(cfg, s, actions);
            tx in t.pg.transactions && ColumnsOf(t.pg.transactions[tx]) == ColumnsOf(s.pg.transactions[tx])
    decreases |actions|
  {
    hide Step;
    if actions == [] {
    } else {
      StepKeepsColumns(cfg, s, actions[0], tx);
      StepKeepsKeyed(cfg, s, actions[0]);
      RunKeepsColumns(cfg, Step(cfg, s, actions[0]), actions[1..], tx);
    }
  }

  /** Between any two points of any run, whatever failed in it: a row's currency, type and merchant
      stay what they were, however often it is written again. */
  lemma ColumnsNeverChange(cfg: Config, earlier: seq<Action>, later: seq<Action>, tx: TxId)
    requires tx in Run(cfg, INIT, earlier).pg.transactions
    ensures var s, t := Run(cfg, INIT, earlier), Run(cfg, INIT, earlier + later);
            tx in t.pg.transactions && ColumnsOf(t.pg.transactions[tx]) == ColumnsOf(s.pg.transactions[tx])
  {
    hide Run;
    RunConcat(cfg, INIT, earlier, later);
    RunStaysKeyed(cfg, INIT, earlier);
    RunKeepsColumns(cfg, Run(cfg, INIT, earlier), later, tx);
  }

  lemma {:induction false} RunStaysKeyed(cfg: Config, s: State, actions: seq<Action>)
    requires Keyed(s)
    ensures Keyed(Run(cfg, s, actions))
    decreases |actions|
  {
    hide Step;
    if actions == [] {
    } else {
      StepKeepsKeyed(cfg, s, actions[0]);
      RunStaysKeyed(cfg, Step(cfg, s, actions[0]), actions[1..]);
    }
  }

  // ----- What they are -----

  predicate AllThree(events: map<Source, PaymentEvent>) {
    Merchant in events && Gateway in events && Bank in events
  }

  /** What the row of an incomplete window gets: one of its events' currency and type, and the
      merchant's id if the merchant has reported. */
  predicate FromSomeEvent(cols: Columns, events: map<Source, PaymentEvent>) {
    && cols.merchantId == (if Merchant in events then events[Merchant].merchantId else None)
    && (if events == map[] then cols.currency == "UZS" && cols.txType == "card"
        else exists src <- events :: cols.currency == events[src].currency && cols.txType == events[src].txType)
  }

  /** The columns with which a step creates a row: the duplicate's own, the merchant's if the window
      is complete, and otherwise those of some event of the window. */
  predicate FirstColumns(cols: Columns, c: Cell, a: Action) {
    match a
    case Deliver(d, _) =>
      if Repeats(c, d.event) then cols == EventColumns(d.event)
      else
        && c.window.Some?
        && var events := c.window.value.events[d.event.source := d.event];
           AllThree(events) && cols == EventColumns(events[Merchant])
    case Timeout(_, _, _) =>
      && c.window.Some?
      && var events := c.window.value.events;
         if AllThree(events) then cols == EventColumns(events[Merchant]) else FromSomeEvent(cols, events)
    case _ => false
  }

  lemma {:induction false} RowComesFrom(c: Cell, ops: seq<Op>)
    requires c.row.None? && CellApply(c, ops).row.Some?
    ensures exists op <- ops :: op.UpsertTransaction? && ColumnsOf(CellApply(c, ops).row.value) == ColumnsOf(op.row)
    decreases |ops|
  {
    if ops == [] {
    } else {
      var c1 := CellOp(c, ops[0]);
      if c1.row.Some? {
        EffectsKeepColumns(c1, ops[1..]);
        assert ops[0] in ops;
      } else {
        RowComesFrom(c1, ops[1..]);
        var op :| op in ops[1..] && op.UpsertTransaction?
                  && ColumnsOf(CellApply(c, ops).row.value) == ColumnsOf(op.row);
        assert op in ops;
      }
    }
  }

  lemma {:induction false} LeaderIsIn(events: map<Source, PaymentEvent>, order: seq<Source>)
    ensures var leader := FirstIn(events, order);
            if leader.Some? then exists src <- events :: events[src] == leader.value
            else forall src <- order :: src !in events
    decreases |order|
  {
    if order == [] {
    } else {
      LeaderIsIn(events, order[1..]);
      assert forall src <- order :: src == order[0] || src in order[1..];
    }
  }

  lemma DegradedColumns(w: Window, env: Env)
    ensures FromSomeEvent(ColumnsOf(DegradedRow(w, env)), w.events)
  {
    LeaderIsIn(w.events, env.order);
    var leader := FirstIn(w.events, env.order);
    if w.events != map[] {
      var src :| src in w.events;
      assert src in env.order by { match src case Merchant => case Gateway => case Bank => }
      assert leader.Some?;
      var k :| k in w.events && w.events[k] == leader.value;
    } else {
      assert leader.None?;
    }
  }

  lemma FinalColumns(w: Window, env: Env)
    requires AllThree(w.events)
    ensures ColumnsOf(FinalRow(w, env)) == EventColumns(w.events[Merchant])
  {
    hide CheckInvariants;
  }

  lemma CompleteIsAllThree(w: Window)
    ensures IsComplete(w) <==> AllThree(w.events)
  {
    CompleteMeansAllThree(w);
  }

  lemma EventUpserts(cfg: Config, c: Cell, claimed: bool, d: Delivery, stop: Option<nat>)
    ensures forall op <- EventOps(cfg, claimed, Repeats(c, d.event), c.window, d) ::
              op.UpsertTransaction? ==> FirstColumns(ColumnsOf(op.row), c, Deliver(d, stop))
  {
    hide DetailOps, VerdictOps, FinalRow, BuildDetails, IsComplete, Repeats, PersistIncidentOps;
    var w := Extended(cfg, c.window, d);
    var t := Timed(w, d.env.elapsed);
    CompleteIsAllThree(w);
    if AllThree(w.events) { FinalColumns(t, d.env); }
    if c.window.None? { OneSource(cfg, d); }
    DetailShape(t.tx, BuildDetails(t));
    VerdictShape(cfg, t, d.env);
    PersistOnly(cfg, DuplicateIncident(d.event), d.env.now);
  }

  lemma OneSource(cfg: Config, d: Delivery)
    ensures !AllThree(Extended(cfg, None, d).events)
  {}

  lemma PersistOnly(cfg: Config, i: Incident, now: int)
    ensures forall op <- PersistIncidentOps(cfg, i, now) :: !op.UpsertTransaction?
  {}

  lemma TimeoutUpserts(cfg: Config, c: Cell, tx: TxId, env: Env, stop: Option<nat>)
    ensures forall op <- TimeoutOps(cfg, tx, c.window, env) ::
              op.UpsertTransaction? ==> FirstColumns(ColumnsOf(op.row), c, Timeout(tx, env, stop))
  {
    hide DetailOps, VerdictOps, FinalRow, DegradedRow, BuildDetails, IsComplete, PersistIncidentOps, MissingIncident,
         FromSomeEvent;
    if c.window.Some? {
      var w := c.window.value;
      CompleteIsAllThree(w);
      if AllThree(w.events) { FinalColumns(w, env); }
      DegradedColumns(w, env);
      DetailShape(w.tx, BuildDetails(w));
      DetailShape(tx, BuildDetails(w));
      VerdictShape(cfg, w, env);
      PersistOnly(cfg, MissingIncident(tx, w), env.now);
    }
  }

  /** Whatever step creates a row, failing or not, gives it these columns. */
  lemma RowIsCreatedWith(cfg: Config, s: State, a: Action, tx: TxId)
    requires Keyed(s) && tx !in s.pg.transactions && tx in Step(cfg, s, a).pg.transactions
    ensures ActionTx(a) == Some(tx)
    ensures FirstColumns(ColumnsOf(Step(cfg, s, a).pg.transactions[tx]), CellOf(s, tx), a)
  {
    hide Step, CellApply, EventOps, TimeoutOps, Performed, FirstColumns, IncidentsOf;
    var c := CellOf(s, tx);
    StepOnCell(cfg, s, a, tx);
    match a
    case Deliver(d, stop) =>
      var ops := EventOps(cfg, AlreadyClaimed(s, a), Repeats(c, d.event), c.window, d);
      EventUpserts(cfg, c, AlreadyClaimed(s, a), d, stop);
      RowComesFrom(c, Performed(ops, stop));
      PerformedIn(ops, stop);
    case Timeout(_, env, stop) =>
      var ops := TimeoutOps(cfg, tx, c.window, env);
      TimeoutUpserts(cfg, c, tx, env, stop);
      RowComesFrom(c.(popped := c.popped - 1), Performed(ops, stop));
      PerformedIn(ops, stop);
    case _ =>
  }

  lemma PerformedIn(ops: seq<Op>, stop: Option<nat>)
    ensures forall op <- Performed(ops, stop) :: op in ops
  {}
}
