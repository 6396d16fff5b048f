/** How many notifications a step sends to subscribers. */
module Notifications {
  import opened Wrappers
  import opened Model
  import opened Store
  import opened Matcher
  import opened Cells
  import opened Coherence
  import opened Verdicts

  function Sent(ops: seq<Op>): nat
    decreases |ops|
  {
    if ops == [] then 0 else (if ops[0].Publish? then 1 else 0) + Sent(ops[1..])
  }

  function Inserted(ops: seq<Op>): nat
    decreases |ops|
  {
    if ops == [] then 0 else (if ops[0].CreateIncident? then 1 else 0) + Inserted(ops[1..])
  }

  lemma {:induction false} SentConcat(a: seq<Op>, b: seq<Op>)
    ensures Sent(a + b) == Sent(a) + Sent(b) && Inserted(a + b) == Inserted(a) + Inserted(b)
    decreases |a|
  {
    if a == [] {
      assert a + b == b;
    } else {
      assert (a + b)[1..] == a[1..] + b;
      SentConcat(a[1..], b);
    }
  }

  lemma {:induction false} NothingSent(ops: seq<Op>)
    requires forall op <- ops :: !op.Publish? && !op.CreateIncident?
    ensures Sent(ops) == 0 && Inserted(ops) == 0
    decreases |ops|
  {
    if ops == [] {
    } else {
      assert ops[0] in ops;
      NothingSent(ops[1..]);
    }
  }

  lemma OneSent()
    ensures Sent([Publish]) == 1 && Inserted([Publish]) == 0
  {
    assert [Publish][1..] == [];
  }

  lemma OneInserted(i: Incident)
    ensures Sent([CreateIncident(i)]) == 0 && Inserted([CreateIncident(i)]) == 1
  {
    var ops := [CreateIncident(i)];
    assert ops[1..] == [];
    NothingSent(ops[1..]);
    assert ops[0].CreateIncident? && !ops[0].Publish?;
    assert Sent(ops) == Sent(ops[1..]) && Inserted(ops) == 1 + Inserted(ops[1..]);
  }

  lemma {:induction false} ApplyInserts(s: State, ops: seq<Op>)
    ensures |Apply(s, ops).pg.incidents| == |s.pg.incidents| + Inserted(ops)
    decreases |ops|
  {
    hide RedisOp, MemoryOp;
    if ops == [] {
    } else {
      ApplyInserts(ApplyOp(s, ops[0]), ops[1..]);
    }
  }

  // ----- The handlers' effects -----

  lemma IncidentAnnounced(cfg: Config, i: Incident, now: int)
    ensures Sent(PersistIncidentOps(cfg, i, now)) == 1 && Inserted(PersistIncidentOps(cfg, i, now)) == 1
  {
    var create, queue := [CreateIncident(i)], if i.severity == 1 then [AddEscalation(now + cfg.escalationMs)] else [];
    OneInserted(i);
    NothingSent(queue);
    OneSent();
    SentConcat(create, queue);
    SentConcat(create + queue, [Publish]);
  }

  lemma {:induction false} AllAnnounced(cfg: Config, incidents: seq<Incident>, now: int)
    ensures Sent(PersistAllOps(cfg, incidents, now)) == Inserted(PersistAllOps(cfg, incidents, now)) == |incidents|
    decreases |incidents|
  {
    hide PersistIncidentOps;
    if incidents == [] {
    } else {
      IncidentAnnounced(cfg, incidents[0], now);
      AllAnnounced(cfg, incidents[1..], now);
      SentConcat(PersistIncidentOps(cfg, incidents[0], now), PersistAllOps(cfg, incidents[1..], now));
    }
  }

  lemma FinalizeAnnounced(cfg: Config, w: Window, env: Env)
    ensures var ops := FinalizeOps(cfg, w, env);
            Sent(ops) == Inserted(ops) + if FinalRow(w, env).status == MatchedStatus then 1 else 0
  {
    hide BuildDetails, DetailOps, CheckInvariants, PersistAllOps, MatchMetric;
    var pre := [UpsertTransaction(w.tx, FinalRow(w, env))] + DetailOps(w.tx, BuildDetails(w));
    var matched := CheckInvariants(w).Matched?;
    DetailShape(w.tx, BuildDetails(w));
    NothingSent(pre);
    NothingSent(CleanupOps(w.tx));
    MetricSilent(matched, env.matchUp);
    OneSent();
    match CheckInvariants(w) {
      case Matched => SentConcat(MatchMetric(true, env.matchUp), [Publish]);
      case Mismatched(incidents) =>
        AllAnnounced(cfg, incidents, env.now);
        SentConcat(MatchMetric(false, env.matchUp), PersistAllOps(cfg, incidents, env.now));
    }
    SentConcat(pre, VerdictOps(cfg, w, env));
    SentConcat(pre + VerdictOps(cfg, w, env), CleanupOps(w.tx));
  }

  lemma MetricSilent(success: bool, up: bool)
    ensures Sent(MatchMetric(success, up)) == 0 && Inserted(MatchMetric(success, up)) == 0
    ensures Sent(ProcessedMetric(up)) == 0 && Inserted(ProcessedMetric(up)) == 0
  {
    NothingSent(MatchMetric(success, up));
    NothingSent(ProcessedMetric(up));
  }

  lemma DegradeAnnounced(cfg: Config, tx: TxId, w: Window, env: Env)
    ensures Sent(DegradeOps(cfg, tx, w, env)) == Inserted(DegradeOps(cfg, tx, w, env))
  {
    hide BuildDetails, DetailOps, DegradedRow, MissingIncident, PersistIncidentOps;
    var pre := [UpsertTransaction(tx, DegradedRow(w, env))] + DetailOps(tx, BuildDetails(w));
    var incident := PersistIncidentOps(cfg, MissingIncident(tx, w), env.now);
    DetailShape(tx, BuildDetails(w));
    NothingSent(pre);
    NothingSent(CleanupOps(tx));
    IncidentAnnounced(cfg, MissingIncident(tx, w), env.now);
    SentConcat(pre, incident);
    SentConcat(pre + incident, CleanupOps(tx));
  }

  lemma DuplicateAnnounced(cfg: Config, d: Delivery)
    ensures Sent(DuplicateOps(cfg, d)) == Inserted(DuplicateOps(cfg, d))
  {
    hide PersistIncidentOps, ProcessedMetric, DuplicateIncident;
    var pre := [UpsertTransaction(d.event.tx, PendingRow(d.event))];
    var incident := PersistIncidentOps(cfg, DuplicateIncident(d.event), d.env.now);
    NothingSent(pre);
    IncidentAnnounced(cfg, DuplicateIncident(d.event), d.env.now);
    MetricSilent(true, d.env.processedUp);
    SentConcat(pre, incident);
    SentConcat(pre + incident, ProcessedMetric(d.env.processedUp));
  }

  lemma ArrivalAnnounced(cfg: Config, open: Option<Window>, d: Delivery)
    ensures var ops, w := ArrivalOps(cfg, open, d), Extended(cfg, open, d);
            Sent(ops) == Inserted(ops) +
            (if Joined(cfg, open, d).events == map[] then 1 else 0) +
            (if !IsComplete(w) then 1
             else if FinalRow(Timed(w, d.env.elapsed), d.env).status == MatchedStatus then 1 else 0)
  {
    hide FinalizeOps, FinalRow, IsComplete, Joined, ProcessedMetric;
    var w := Extended(cfg, open, d);
    var before := Joined(cfg, open, d);
    var enter := if open.None? then [SetWindow(before)] else [];
    var queue := if before.events == map[] then [AddDeadline(d.event.tx, before.deadline)] + [Publish] else [];
    OneSent();
    NothingSent(enter);
    NothingSent([AddDeadline(d.event.tx, before.deadline)]);
    NothingSent([]);
    SentConcat([AddDeadline(d.event.tx, before.deadline)], [Publish]);
    assert OpenOps(cfg, open, d) == enter + queue;
    SentConcat(enter, queue);
    var hold, result := [SetWindow(w), SaveWindow(w)], ResultOps(cfg, w, d.env);
    NothingSent(hold);
    if IsComplete(w) {
      FinalizeAnnounced(cfg, Timed(w, d.env.elapsed), d.env);
    } else {
      var t := Timed(w, d.env.elapsed);
      NothingSent([SetWindow(t), SaveWindow(t)]);
      SentConcat([Publish], [SetWindow(t), SaveWindow(t)]);
      assert result == [Publish] + [SetWindow(t), SaveWindow(t)];
    }
    MetricSilent(true, d.env.processedUp);
    SentConcat(OpenOps(cfg, open, d), hold);
    SentConcat(OpenOps(cfg, open, d) + hold, result);
    SentConcat(OpenOps(cfg, open, d) + hold + result, ProcessedMetric(d.env.processedUp));
  }

  // ----- Steps -----

  /** A new window is announced, an event that leaves its window open reports progress, a match is
      announced, and so is every incident; nothing else is. */
  lemma EventAnnounced(cfg: Config, s: State, d: Delivery)
    requires Inv(cfg, s) && Clean(Deliver(d, None)) && d.event.eventId !in s.redis.claims
    ensures var tx := d.event.tx;
            var a := Deliver(d, None);
            var t := Step(cfg, s, a);
            Sent(DeliverOps(cfg, s, d)) ==
            (|t.pg.incidents| - |s.pg.incidents|) +
            (if tx !in s.windows && tx in t.windows then 1 else 0) +
            (if !Registered(s, d.event) && tx in t.windows then 1 else 0) +
            (if ClosesWith(s, a, t, MatchedStatus) then 1 else 0)
  {
    hide Apply, Inv, CellOf, CellStep, Finalized, FinalRow, IsComplete, Extended, Coherent, DuplicateOps, ArrivalOps,
         Joined, Sent, Inserted;
    var tx, a, open := d.event.tx, Deliver(d, None), Lookup(s.windows, d.event.tx);
    var t := Step(cfg, s, a);
    var first := [ClaimEvent(d.event.eventId), RegisterSource(tx, d.event.source), TouchSources(tx)];
    var rest := if Registered(s, d.event) then DuplicateOps(cfg, d) else ArrivalOps(cfg, open, d);
    assert DeliverOps(cfg, s, d) == first + rest;
    NothingSent(first);
    SentConcat(first, rest);
    ApplyInserts(s, DeliverOps(cfg, s, d));
    InvKeyed(cfg, s);
    CoherentTx(cfg, s, tx);
    StepOnCell(cfg, s, a, tx);
    CleanCellStep(cfg, CellOf(s, tx), false, a);
    RowRead(s, tx);
    RowRead(t, tx);
    RepeatsRead(s, d.event);
    EventCloses(cfg, CellOf(s, tx), d);
    OpensIffNone(cfg, CellOf(s, tx), tx, d);
    if Registered(s, d.event) { DuplicateAnnounced(cfg, d); } else { ArrivalAnnounced(cfg, open, d); }
  }

  lemma RepeatsRead(s: State, e: PaymentEvent)
    ensures Repeats(CellOf(s, e.tx), e) == Registered(s, e)
  {}

  lemma OpensIffNone(cfg: Config, c: Cell, tx: TxId, d: Delivery)
    requires Coherent(cfg, tx, c)
    ensures Joined(cfg, c.window, d).events == map[] <==> c.window.None?
    ensures Repeats(c, d.event) ==> c.window.Some? && AfterEvent(cfg, c, d).window == c.window
    ensures !Repeats(c, d.event) && !IsComplete(Extended(cfg, c.window, d)) ==> AfterEvent(cfg, c, d).window.Some?
  {
    hide IsComplete, Finalized, WellKeyed;
  }

  /** A timeout announces its incident, and nothing else. */
  lemma TimeoutAnnounced(cfg: Config, s: State, tx: TxId, env: Env)
    requires Inv(cfg, s) && Clean(Timeout(tx, env, None)) && tx in s.popped
    ensures Sent(TimeoutOps(cfg, tx, Lookup(s.windows, tx), env)) ==
            |Step(cfg, s, Timeout(tx, env, None)).pg.incidents| - |s.pg.incidents|
  {
    hide Apply, Inv, DegradeOps, IsComplete, Coherent, Sent, Inserted;
    var ops := TimeoutOps(cfg, tx, Lookup(s.windows, tx), env);
    CoherentTx(cfg, s, tx);
    ApplyInserts(s.(popped := s.popped - multiset{tx}), ops);
    NothingSent([]);
    if tx in s.windows {
      DegradeAnnounced(cfg, tx, s.windows[tx], env);
      NothingSent([RemoveWindow(tx)]);
      SentConcat([RemoveWindow(tx)], DegradeOps(cfg, tx, s.windows[tx], env));
    }
  }
}
