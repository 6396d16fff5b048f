/** No detail row and no incident without a transaction row, whatever fails. */
module Recorded {
  import opened Wrappers
  import opened Model
  import opened Store
  import opened Matcher
  import opened Cells
  import opened Coherence

  predicate HasRow(c: Cell) {
    c.details != map[] || c.incidents != [] ==> c.row.Some?
  }

  /** The transaction row is written before any detail row or incident. */
  predicate RowFirst(ops: seq<Op>)
    decreases |ops|
  {
    ops == [] || ops[0].UpsertTransaction?
    || (!ops[0].UpsertDetail? && !ops[0].CreateIncident? && RowFirst(ops[1..]))
  }

  lemma {:induction false} RowFirstPrefix(ops: seq<Op>, k: nat)
    requires RowFirst(ops) && k <= |ops|
    ensures RowFirst(ops[..k])
    decreases k
  {
    if k == 0 {
    } else if ops[0].UpsertTransaction? {
      assert ops[..k][0] == ops[0];
    } else {
      assert ops[..k][1..] == ops[1..][..k - 1];
      RowFirstPrefix(ops[1..], k - 1);
    }
  }

  lemma {:induction false} RowFirstConcat(a: seq<Op>, b: seq<Op>)
    requires (forall op <- a :: !op.UpsertDetail? && !op.CreateIncident?) && RowFirst(b)
    ensures RowFirst(a + b)
    decreases |a|
  {
    if a == [] {
      assert a + b == b;
    } else {
      assert a[0] in a && (a + b)[1..] == a[1..] + b;
      RowFirstConcat(a[1..], b);
    }
  }

  lemma {:induction false} RowStays(c: Cell, ops: seq<Op>)
    requires c.row.Some?
    ensures CellApply(c, ops).row.Some?
    decreases |ops|
  {
    if ops == [] {
    } else {
      RowStays(CellOp(c, ops[0]), ops[1..]);
    }
  }

  lemma {:induction false} RowFirstKeeps(c: Cell, ops: seq<Op>)
    requires HasRow(c) && RowFirst(ops)
    ensures HasRow(CellApply(c, ops))
    decreases |ops|
  {
    if ops == [] {
    } else if ops[0].UpsertTransaction? {
      RowStays(CellOp(c, ops[0]), ops[1..]);
    } else {
      RowFirstKeeps(CellOp(c, ops[0]), ops[1..]);
    }
  }

  lemma UpsertFirst(tx: TxId, row: TxRow, rest: seq<Op>)
    ensures RowFirst([UpsertTransaction(tx, row)] + rest)
  {}

  lemma FinalizeRowFirst(cfg: Config, w: Window, env: Env)
    ensures RowFirst(FinalizeOps(cfg, w, env))
  {
    hide DetailOps, VerdictOps, CleanupOps, BuildDetails, FinalRow;
    var rest := DetailOps(w.tx, BuildDetails(w)) + VerdictOps(cfg, w, env) + CleanupOps(w.tx);
    assert FinalizeOps(cfg, w, env) == [UpsertTransaction(w.tx, FinalRow(w, env))] + rest;
    UpsertFirst(w.tx, FinalRow(w, env), rest);
  }

  lemma DegradeRowFirst(cfg: Config, tx: TxId, w: Window, env: Env)
    ensures RowFirst(DegradeOps(cfg, tx, w, env))
  {
    hide DetailOps, PersistIncidentOps, CleanupOps, BuildDetails, DegradedRow, MissingIncident;
    var rest := DetailOps(tx, BuildDetails(w)) + PersistIncidentOps(cfg, MissingIncident(tx, w), env.now) +
                CleanupOps(tx);
    assert DegradeOps(cfg, tx, w, env) == [UpsertTransaction(tx, DegradedRow(w, env))] + rest;
    UpsertFirst(tx, DegradedRow(w, env), rest);
  }

  lemma DuplicateRowFirst(cfg: Config, d: Delivery)
    ensures RowFirst(DuplicateOps(cfg, d))
  {
    hide PersistIncidentOps, ProcessedMetric, DuplicateIncident;
    var row := TxRow(Pending, d.event.currency, d.event.txType, d.event.merchantId, 0);
    var rest := PersistIncidentOps(cfg, DuplicateIncident(d.event), d.env.now) + ProcessedMetric(d.env.processedUp);
    assert DuplicateOps(cfg, d) == [UpsertTransaction(d.event.tx, row)] + rest;
    UpsertFirst(d.event.tx, row, rest);
  }

  lemma {:induction false} NothingReported(ops: seq<Op>)
    requires forall op <- ops :: !op.UpsertDetail? && !op.CreateIncident?
    ensures RowFirst(ops)
    decreases |ops|
  {
    if ops == [] {
    } else {
      assert ops[0] in ops;
      NothingReported(ops[1..]);
    }
  }

  lemma {:induction false} RowFirstThen(a: seq<Op>, b: seq<Op>)
    requires RowFirst(a) && forall op <- b :: !op.UpsertDetail? && !op.CreateIncident?
    ensures RowFirst(a + b)
    decreases |a|
  {
    if a == [] {
      assert a + b == b;
      NothingReported(b);
    } else if a[0].UpsertTransaction? {
      assert (a + b)[0] == a[0];
    } else {
      assert (a + b)[1..] == a[1..] + b;
      RowFirstThen(a[1..], b);
    }
  }

  lemma ArrivalRowFirst(cfg: Config, open: Option<Window>, d: Delivery)
    ensures RowFirst(ArrivalOps(cfg, open, d))
  {
    hide FinalizeOps, RowFirst, Joined, IsComplete;
    var w := Extended(cfg, open, d);
    var pre := OpenOps(cfg, open, d) + [SetWindow(w), SaveWindow(w)];
    FinalizeRowFirst(cfg, Timed(w, d.env.elapsed), d.env);
    NothingReported(ProgressOps(w, d.env));
    RowFirstConcat(pre, ResultOps(cfg, w, d.env));
    RowFirstThen(pre + ResultOps(cfg, w, d.env), ProcessedMetric(d.env.processedUp));
  }

  lemma EventRowFirst(cfg: Config, claimed: bool, registered: bool, open: Option<Window>, d: Delivery)
    ensures RowFirst(EventOps(cfg, claimed, registered, open, d))
  {
    hide DuplicateOps, ArrivalOps, RowFirst;
    NothingReported([]);
    DuplicateRowFirst(cfg, d);
    ArrivalRowFirst(cfg, open, d);
    var pre := [ClaimEvent(d.event.eventId), RegisterSource(d.event.tx, d.event.source), TouchSources(d.event.tx)];
    var rest := if registered then DuplicateOps(cfg, d) else ArrivalOps(cfg, open, d);
    RowFirstConcat(pre, rest);
    assert !claimed ==> EventOps(cfg, claimed, registered, open, d) == pre + rest;
  }

  lemma TimeoutRowFirst(cfg: Config, tx: TxId, open: Option<Window>, env: Env)
    ensures RowFirst(TimeoutOps(cfg, tx, open, env))
  {
    hide FinalizeOps, DegradeOps, RowFirst, IsComplete;
    NothingReported([]);
    if open.Some? {
      FinalizeRowFirst(cfg, open.value, env);
      DegradeRowFirst(cfg, tx, open.value, env);
      RowFirstConcat([RemoveWindow(tx)],
                     if IsComplete(open.value) then FinalizeOps(cfg, open.value, env)
                     else DegradeOps(cfg, tx, open.value, env));
    }
  }

  lemma PerformedRowFirst(ops: seq<Op>, stop: Option<nat>)
    requires RowFirst(ops)
    ensures RowFirst(Performed(ops, stop))
  {
    if stop.Some? { RowFirstPrefix(ops, StopIndex(ops, stop.value)); }
  }

  lemma StepKeepsRow(cfg: Config, c: Cell, claimed: bool, a: Action)
    requires HasRow(c)
    ensures HasRow(CellStep(cfg, c, claimed, a))
  {
    hide CellApply, Performed, EventOps, TimeoutOps, RowFirst;
    match a
    case Deliver(d, stop) =>
      var ops := EventOps(cfg, claimed, Repeats(c, d.event), c.window, d);
      EventRowFirst(cfg, claimed, Repeats(c, d.event), c.window, d);
      PerformedRowFirst(ops, stop);
      RowFirstKeeps(c, Performed(ops, stop));
    case Timeout(tx, env, stop) =>
      if c.popped > 0 {
        var ops := TimeoutOps(cfg, tx, c.window, env);
        TimeoutRowFirst(cfg, tx, c.window, env);
        PerformedRowFirst(ops, stop);
        RowFirstKeeps(c.(popped := c.popped - 1), Performed(ops, stop));
      }
    case _ =>
  }

  ghost predicate AllHaveRows(s: State) {
    Keyed(s) && forall tx: TxId :: HasRow(CellOf(s, tx))
  }

  lemma {:induction false} RunKeepsRows(cfg: Config, s: State, actions: seq<Action>)
    requires AllHaveRows(s)
    ensures AllHaveRows(Run(cfg, s, actions))
    decreases |actions|
  {
    hide Step, CellOf, CellStep, HasRow, Keyed;
    if actions == [] {
    } else {
      var a, t := actions[0], Step(cfg, s, actions[0]);
      StepKeepsKeyed(cfg, s, a);
      forall tx: TxId ensures HasRow(CellOf(t, tx)) {
        StepOnCell(cfg, s, a, tx);
        assert HasRow(CellOf(s, tx));
        if ActionTx(a) == Some(tx) { StepKeepsRow(cfg, CellOf(s, tx), AlreadyClaimed(s, a), a); }
      }
      RunKeepsRows(cfg, t, actions[1..]);
    }
  }

  lemma InitHasRows()
    ensures AllHaveRows(INIT)
  {}

  /** In every run, with any failures, every detail row and every incident belongs to a
      transaction that has a row. */
  lemma ReportsHaveRows(cfg: Config, actions: seq<Action>)
    ensures var s := Run(cfg, INIT, actions);
            && (forall tx <- s.pg.details :: s.pg.details[tx] != map[] ==> tx in s.pg.transactions)
            && (forall row <- s.pg.incidents :: row.incident.tx in s.pg.transactions)
  {
    hide Run, IncidentsOf;
    InitHasRows();
    RunKeepsRows(cfg, INIT, actions);
    var s := Run(cfg, INIT, actions);
    forall tx <- s.pg.details | s.pg.details[tx] != map[] ensures tx in s.pg.transactions {
      assert HasRow(CellOf(s, tx));
    }
    forall row <- s.pg.incidents ensures row.incident.tx in s.pg.transactions {
      var id: nat :| id < |s.pg.incidents| && s.pg.incidents[id] == row;
      IncidentListed(s.pg.incidents, id);
      assert HasRow(CellOf(s, row.incident.tx));
    }
  }
}
