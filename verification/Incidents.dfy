/** The incident lifecycle: created by the matcher, escalated by its timer, acknowledged and
    resolved by the API gateway. */
module Incidents {
  import opened Wrappers
  import opened Model
  import opened Store
  import opened Matcher
  import opened Cells
  import opened Coherence

  // ----- Each row moves forward only -----

  function Rank(status: IncidentStatus): nat {
    match status case Open => 0 case Acknowledged => 1 case Resolved => 2
  }

  predicate RowOk(row: IncidentRow) {
    && 1 <= row.severity <= 2 && (row.severity == 2 <==> row.escalatedAt.Some?)
    && (row.resolvedAt.Some? <==> row.status == Resolved)
    && (row.status == Open ==> row.acknowledgedAt.None?)
    && (row.status == Acknowledged ==> row.acknowledgedAt.Some?)
  }

  predicate Kept<T(==)>(before: Option<T>, after: Option<T>) {
    before.Some? ==> after == before
  }

  /** From one state to any later one. */
  predicate Forward(before: IncidentRow, after: IncidentRow) {
    && after.incident == before.incident
    && Rank(before.status) <= Rank(after.status)
    && before.severity <= after.severity
    && (before.status != Open ==>
          after.severity == before.severity && after.escalatedAt == before.escalatedAt
          && after.acknowledgedAt == before.acknowledgedAt)
    && Kept(before.acknowledgedAt, after.acknowledgedAt)
    && Kept(before.resolvedAt, after.resolvedAt)
    && Kept(before.escalatedAt, after.escalatedAt)
    && (before.status == Resolved ==> after == before)
  }

  predicate RowsForward(before: seq<IncidentRow>, after: seq<IncidentRow>) {
    && |before| <= |after|
    && forall id | 0 <= id < |before| :: Forward(before[id], after[id])
  }

  predicate RowsOk(rows: seq<IncidentRow>) {
    forall row <- rows :: RowOk(row)
  }

  lemma OneRow(row: IncidentRow, now: int)
    requires RowOk(row)
    ensures forall next <- [EscalatedRow(row, now), AcknowledgedRow(row, now), ResolvedRow(row, now)] ::
              RowOk(next) && Forward(row, next)
  {}

  // ----- Effects on incidents: a creation and its escalation entry come in pairs -----

  predicate Paired(ops: seq<Op>, at: int)
    decreases |ops|
  {
    || ops == []
    || (!ops[0].CreateIncident? && !ops[0].AddEscalation? && Paired(ops[1..], at))
    || (&& ops[0].CreateIncident? && ops[0].incident.severity == 1
        && |ops| >= 2 && ops[1].AddEscalation? && ops[1].at == at
        && Paired(ops[2..], at))
  }

  lemma {:induction false} PairedConcat(a: seq<Op>, b: seq<Op>, at: int)
    requires Paired(a, at) && Paired(b, at)
    ensures Paired(a + b, at)
    decreases |a|
  {
    if a == [] {
      assert a + b == b;
    } else if a[0].CreateIncident? {
      assert (a + b)[2..] == a[2..] + b;
      PairedConcat(a[2..], b, at);
    } else {
      assert (a + b)[1..] == a[1..] + b;
      PairedConcat(a[1..], b, at);
    }
  }

  lemma {:induction false} UnrelatedPaired(ops: seq<Op>, at: int)
    requires forall op <- ops :: !op.CreateIncident? && !op.AddEscalation?
    ensures Paired(ops, at)
    decreases |ops|
  {
    if ops == [] {
    } else {
      assert ops[0] in ops;
      UnrelatedPaired(ops[1..], at);
    }
  }

  lemma PersistPaired(cfg: Config, i: Incident, now: int)
    requires i.severity == 1
    ensures Paired(PersistIncidentOps(cfg, i, now), now + cfg.escalationMs)
  {
    var ops := PersistIncidentOps(cfg, i, now);
    assert ops == [CreateIncident(i), AddEscalation(now + cfg.escalationMs), Publish];
    assert ops[2..] == [Publish];
    UnrelatedPaired([Publish], now + cfg.escalationMs);
  }

  lemma {:induction false} PersistAllPaired(cfg: Config, incidents: seq<Incident>, now: int)
    requires forall i <- incidents :: i.severity == 1
    ensures Paired(PersistAllOps(cfg, incidents, now), now + cfg.escalationMs)
    decreases |incidents|
  {
    hide Paired, PersistIncidentOps;
    if incidents == [] {
      UnrelatedPaired([], now + cfg.escalationMs);
    } else {
      assert incidents[0] in incidents;
      PersistPaired(cfg, incidents[0], now);
      PersistAllPaired(cfg, incidents[1..], now);
      PairedConcat(PersistIncidentOps(cfg, incidents[0], now), PersistAllOps(cfg, incidents[1..], now),
                   now + cfg.escalationMs);
    }
  }

  lemma FindingsSeverity(w: Window)
    ensures forall i <- IncidentsIn(CheckInvariants(w)) :: i.severity == 1
  {}

  lemma VerdictPaired(cfg: Config, w: Window, env: Env)
    ensures Paired(VerdictOps(cfg, w, env), env.now + cfg.escalationMs)
  {
    hide Paired, CheckInvariants;
    var at := env.now + cfg.escalationMs;
    FindingsSeverity(w);
    match CheckInvariants(w)
    case Matched => UnrelatedPaired(VerdictOps(cfg, w, env), at);
    case Mismatched(incidents) =>
      UnrelatedPaired(MatchMetric(false, env.matchUp), at);
      PersistAllPaired(cfg, incidents, env.now);
      PairedConcat(MatchMetric(false, env.matchUp), PersistAllOps(cfg, incidents, env.now), at);
  }

  lemma UpsertPaired(tx: TxId, row: TxRow, details: seq<Detail>, at: int)
    ensures Paired([UpsertTransaction(tx, row)] + DetailOps(tx, details), at)
    ensures Paired(CleanupOps(tx), at)
  {
    hide Paired;
    DetailShape(tx, details);
    UnrelatedPaired([UpsertTransaction(tx, row)] + DetailOps(tx, details), at);
    UnrelatedPaired(CleanupOps(tx), at);
  }

  lemma FinalizePaired(cfg: Config, w: Window, env: Env)
    ensures Paired(FinalizeOps(cfg, w, env), env.now + cfg.escalationMs)
  {
    hide Paired, BuildDetails, FinalRow, VerdictOps, DetailOps, CleanupOps;
    var at := env.now + cfg.escalationMs;
    var upsert := [UpsertTransaction(w.tx, FinalRow(w, env))] + DetailOps(w.tx, BuildDetails(w));
    UpsertPaired(w.tx, FinalRow(w, env), BuildDetails(w), at);
    VerdictPaired(cfg, w, env);
    PairedConcat(upsert, VerdictOps(cfg, w, env), at);
    PairedConcat(upsert + VerdictOps(cfg, w, env), CleanupOps(w.tx), at);
  }

  lemma DegradePaired(cfg: Config, tx: TxId, w: Window, env: Env)
    ensures Paired(DegradeOps(cfg, tx, w, env), env.now + cfg.escalationMs)
  {
    hide Paired, BuildDetails, DegradedRow, DetailOps, CleanupOps, PersistIncidentOps;
    var at := env.now + cfg.escalationMs;
    var upsert := [UpsertTransaction(tx, DegradedRow(w, env))] + DetailOps(tx, BuildDetails(w));
    var incident := PersistIncidentOps(cfg, MissingIncident(tx, w), env.now);
    UpsertPaired(tx, DegradedRow(w, env), BuildDetails(w), at);
    PersistPaired(cfg, MissingIncident(tx, w), env.now);
    PairedConcat(upsert, incident, at);
    PairedConcat(upsert + incident, CleanupOps(tx), at);
  }

  lemma DuplicatePaired(cfg: Config, d: Delivery)
    ensures Paired(DuplicateOps(cfg, d), d.env.now + cfg.escalationMs)
  {
    hide Paired, PersistIncidentOps;
    var at := d.env.now + cfg.escalationMs;
    var upsert := [UpsertTransaction(d.event.tx, PendingRow(d.event))];
    var incident := PersistIncidentOps(cfg, DuplicateIncident(d.event), d.env.now);
    UnrelatedPaired(upsert, at);
    PersistPaired(cfg, DuplicateIncident(d.event), d.env.now);
    UnrelatedPaired(ProcessedMetric(d.env.processedUp), at);
    PairedConcat(upsert, incident, at);
    PairedConcat(upsert + incident, ProcessedMetric(d.env.processedUp), at);
  }

  lemma ArrivalPaired(cfg: Config, open: Option<Window>, d: Delivery)
    ensures Paired(ArrivalOps(cfg, open, d), d.env.now + cfg.escalationMs)
  {
    hide Paired, FinalizeOps, IsComplete, Joined;
    var at, w := d.env.now + cfg.escalationMs, Extended(cfg, open, d);
    var first, second, third := OpenOps(cfg, open, d), [SetWindow(w), SaveWindow(w)], ResultOps(cfg, w, d.env);
    UnrelatedPaired(first, at);
    UnrelatedPaired(second, at);
    if IsComplete(w) { FinalizePaired(cfg, Timed(w, d.env.elapsed), d.env); } else { UnrelatedPaired(third, at); }
    UnrelatedPaired(ProcessedMetric(d.env.processedUp), at);
    PairedConcat(first, second, at);
    PairedConcat(first + second, third, at);
    PairedConcat(first + second + third, ProcessedMetric(d.env.processedUp), at);
  }

  lemma EventPaired(cfg: Config, claimed: bool, registered: bool, open: Option<Window>, d: Delivery)
    ensures Paired(EventOps(cfg, claimed, registered, open, d), d.env.now + cfg.escalationMs)
  {
    hide Paired, DuplicateOps, ArrivalOps;
    var e, at := d.event, d.env.now + cfg.escalationMs;
    var claim, source := [ClaimEvent(e.eventId)], [RegisterSource(e.tx, e.source), TouchSources(e.tx)];
    var rest := if registered then DuplicateOps(cfg, d) else ArrivalOps(cfg, open, d);
    UnrelatedPaired([], at);
    UnrelatedPaired(claim, at);
    UnrelatedPaired(source, at);
    DuplicatePaired(cfg, d);
    ArrivalPaired(cfg, open, d);
    PairedConcat(source, rest, at);
    PairedConcat(claim, source + rest, at);
  }

  lemma TimeoutPaired(cfg: Config, tx: TxId, open: Option<Window>, env: Env)
    ensures Paired(TimeoutOps(cfg, tx, open, env), env.now + cfg.escalationMs)
  {
    hide Paired, FinalizeOps, DegradeOps, IsComplete;
    var at := env.now + cfg.escalationMs;
    UnrelatedPaired([], at);
    UnrelatedPaired([RemoveWindow(tx)], at);
    if open.Some? {
      FinalizePaired(cfg, open.value, env);
      DegradePaired(cfg, tx, open.value, env);
      PairedConcat([RemoveWindow(tx)],
                   if IsComplete(open.value) then FinalizeOps(cfg, open.value, env)
                   else DegradeOps(cfg, tx, open.value, env), at);
    }
  }

  // ----- The lifecycle over every run -----

  lemma {:induction false} ApplyForward(s: State, ops: seq<Op>, all: seq<Op>, at: int)
    requires RowsOk(s.pg.incidents) && Paired(all, at) && ops <= all
    ensures RowsOk(Apply(s, ops).pg.incidents) && RowsForward(s.pg.incidents, Apply(s, ops).pg.incidents)
    decreases |ops|
  {
    if ops == [] {
    } else {
      var s1 := ApplyOp(s, ops[0]);
      assert RowsOk(s1.pg.incidents) && RowsForward(s.pg.incidents, s1.pg.incidents);
      if ops[0].CreateIncident? {
        if |ops| > 1 {
          var s2 := ApplyOp(s1, ops[1]);
          assert ops[1..][1..] == ops[2..];
          ApplyForward(s2, ops[2..], all[2..], at);
        }
      } else {
        ApplyForward(s1, ops[1..], all[1..], at);
      }
    }
  }

  lemma RowsForwardTrans(a: seq<IncidentRow>, b: seq<IncidentRow>, c: seq<IncidentRow>)
    requires RowsForward(a, b) && RowsForward(b, c)
    ensures RowsForward(a, c)
  {
    forall id | 0 <= id < |a| ensures Forward(a[id], c[id]) {
      assert Forward(a[id], b[id]) && Forward(b[id], c[id]);
    }
  }

  lemma StepForward(cfg: Config, s: State, a: Action)
    requires RowsOk(s.pg.incidents)
    ensures RowsOk(Step(cfg, s, a).pg.incidents)
    ensures RowsForward(s.pg.incidents, Step(cfg, s, a).pg.incidents)
  {
    hide Apply, Paired, EventOps, TimeoutOps, RowOk, Forward, EscalatedRow, AcknowledgedRow, ResolvedRow;
    forall row: IncidentRow | row in s.pg.incidents ensures Forward(row, row) { RowStays(row); }
    match a
    case Deliver(d, stop) =>
      var ops := DeliverOps(cfg, s, d);
      EventPaired(cfg, d.event.eventId in s.redis.claims, Registered(s, d.event), Lookup(s.windows, d.event.tx), d);
      ApplyForward(s, Performed(ops, stop), ops, d.env.now + cfg.escalationMs);
    case Timeout(tx, env, stop) =>
      if tx in s.popped {
        var ops := TimeoutOps(cfg, tx, Lookup(s.windows, tx), env);
        TimeoutPaired(cfg, tx, Lookup(s.windows, tx), env);
        ApplyForward(s.(popped := s.popped - multiset{tx}), Performed(ops, stop), ops, env.now + cfg.escalationMs);
      }
    case PopDeadline(_) =>
    case PopEscalation(_) =>
    case Escalate(id, now, _) => if id < |s.pg.incidents| { OneRow(s.pg.incidents[id], now); }
    case Acknowledge(id, now) => if id < |s.pg.incidents| { OneRow(s.pg.incidents[id], now); }
    case Resolve(id, now) => if id < |s.pg.incidents| { OneRow(s.pg.incidents[id], now); }
  }

  lemma RowStays(row: IncidentRow)
    ensures Forward(row, row)
  {}

  lemma {:induction false} RunForward(cfg: Config, s: State, actions: seq<Action>)
    requires RowsOk(s.pg.incidents)
    ensures RowsOk(Run(cfg, s, actions).pg.incidents)
    ensures RowsForward(s.pg.incidents, Run(cfg, s, actions).pg.incidents)
    decreases |actions|
  {
    hide Step, RowOk, Forward;
    if actions == [] {
      forall row: IncidentRow | row in s.pg.incidents ensures Forward(row, row) { RowStays(row); }
    } else {
      var t := Step(cfg, s, actions[0]);
      StepForward(cfg, s, actions[0]);
      RunForward(cfg, t, actions[1..]);
      RowsForwardTrans(s.pg.incidents, t.pg.incidents, Run(cfg, t, actions[1..]).pg.incidents);
    }
  }

  /** Between any two points of any run, whatever failed in it and however creation,
      acknowledgement, resolution and escalation interleave: no incident disappears, its status
      only moves forward, its severity is 1 or 2 and rises once and only while it is open, and
      no timestamp ever changes once it is set. Module Lifecycle says what sets each one. */
  lemma LifecycleOnlyMovesForward(cfg: Config, earlier: seq<Action>, later: seq<Action>)
    ensures var s := Run(cfg, INIT, earlier);
            var t := Run(cfg, s, later);
            && RowsOk(s.pg.incidents) && RowsOk(t.pg.incidents)
            && RowsForward(s.pg.incidents, t.pg.incidents)
  {
    hide Run;
    RunForward(cfg, INIT, earlier);
    RunForward(cfg, Run(cfg, INIT, earlier), later);
  }

  // ----- Escalation -----

  predicate Waiting(s: State, id: nat)
    requires id < |s.pg.incidents|
  {
    s.pg.incidents[id].status == Open && s.pg.incidents[id].severity == 1
  }

  /** Every open incident of severity 1 is queued with a later due time, or belongs to the pass:
      it is still to be popped (`pending`) or popped and not handled yet. */
  predicate Covered(s: State, now: int, pending: set<IncidentId>) {
    && (forall id <- s.redis.escalations :: id < |s.pg.incidents|)
    && forall id: nat | id < |s.pg.incidents| :: Waiting(s, id) ==>
         || id in s.poppedEscalations
         || (id in s.redis.escalations && (s.redis.escalations[id] > now || id in pending))
  }

  lemma {:induction false} ApplyCovered(s: State, ops: seq<Op>, now: int, pending: set<IncidentId>, at: int)
    requires Covered(s, now, pending) && Paired(ops, at) && at > now
    ensures Covered(Apply(s, ops), now, pending)
    decreases |ops|
  {
    if ops == [] {
    } else {
      var s1 := ApplyOp(s, ops[0]);
      if ops[0].CreateIncident? {
        var s2 := ApplyOp(s1, ops[1]);
        assert ops[1..][1..] == ops[2..] && ops[1..] != [];
        PairCovered(s, ops[0].incident, ops[1].at, now, pending);
        assert Apply(s, ops) == Apply(s2, ops[2..]);
        ApplyCovered(s2, ops[2..], now, pending, at);
      } else {
        OtherCovered(s, ops[0], now, pending);
        ApplyCovered(s1, ops[1..], now, pending, at);
      }
    }
  }

  lemma PairCovered(s: State, i: Incident, at: int, now: int, pending: set<IncidentId>)
    requires Covered(s, now, pending) && at > now
    ensures Covered(ApplyOp(ApplyOp(s, CreateIncident(i)), AddEscalation(at)), now, pending)
  {
    var t := ApplyOp(ApplyOp(s, CreateIncident(i)), AddEscalation(at));
    assert t.pg.incidents == s.pg.incidents + [NewIncidentRow(i)];
    forall id: nat | id < |s.pg.incidents| ensures Waiting(t, id) == Waiting(s, id) {}
  }

  lemma OtherCovered(s: State, op: Op, now: int, pending: set<IncidentId>)
    requires Covered(s, now, pending) && !op.CreateIncident? && !op.AddEscalation?
    ensures Covered(ApplyOp(s, op), now, pending)
  {
    var t := ApplyOp(s, op);
    assert t.pg.incidents == s.pg.incidents && t.redis.escalations == s.redis.escalations;
    forall id: nat | id < |s.pg.incidents| ensures Waiting(t, id) == Waiting(s, id) {}
  }

  predicate Later(cfg: Config, a: Action, now: int) {
    && (a.Deliver? ==> a.d.env.now + cfg.escalationMs > now)
    && (a.Timeout? ==> a.env.now + cfg.escalationMs > now)
  }

  function Unpopped(pending: set<IncidentId>, a: Action): set<IncidentId> {
    if a.PopEscalation? then pending - {a.id} else pending
  }

  lemma StepCovered(cfg: Config, s: State, a: Action, now: int, pending: set<IncidentId>)
    requires Covered(s, now, pending) && RowsOk(s.pg.incidents) && Clean(a) && Later(cfg, a, now)
    ensures Covered(Step(cfg, s, a), now, Unpopped(pending, a))
  {
    hide Apply, Paired, EventOps, TimeoutOps, PopEscalationStep, EscalateStep, WithRow, Covered;
    match a
    case Deliver(d, _) =>
      EventPaired(cfg, d.event.eventId in s.redis.claims, Registered(s, d.event), Lookup(s.windows, d.event.tx), d);
      ApplyCovered(s, DeliverOps(cfg, s, d), now, pending, d.env.now + cfg.escalationMs);
    case Timeout(tx, env, _) =>
      if tx in s.popped {
        var t := s.(popped := s.popped - multiset{tx});
        TimeoutPaired(cfg, tx, Lookup(s.windows, tx), env);
        SameIncidentState(s, t, now, pending);
        ApplyCovered(t, TimeoutOps(cfg, tx, Lookup(s.windows, tx), env), now, pending, env.now + cfg.escalationMs);
      }
    case PopDeadline(_) => SameIncidentState(s, Step(cfg, s, a), now, pending);
    case PopEscalation(id) => PopCovered(s, id, now, pending);
    case Escalate(id, t, _) => EscalateCovered(s, id, t, now, pending);
    case Acknowledge(id, t) =>
      if id < |s.pg.incidents| { RowCovered(s, id, AcknowledgedRow(s.pg.incidents[id], t), now, pending); }
    case Resolve(id, t) =>
      if id < |s.pg.incidents| { RowCovered(s, id, ResolvedRow(s.pg.incidents[id], t), now, pending); }
  }

  lemma SameIncidentState(s: State, t: State, now: int, pending: set<IncidentId>)
    requires Covered(s, now, pending)
    requires t.pg.incidents == s.pg.incidents && t.redis.escalations == s.redis.escalations
    requires t.poppedEscalations == s.poppedEscalations
    ensures Covered(t, now, pending)
  {
    forall id: nat | id < |s.pg.incidents| ensures Waiting(t, id) == Waiting(s, id) {}
  }

  lemma PopCovered(s: State, id: IncidentId, now: int, pending: set<IncidentId>)
    requires Covered(s, now, pending)
    ensures Covered(PopEscalationStep(s, id), now, pending - {id})
  {
    var t := PopEscalationStep(s, id);
    forall i: nat | i < |s.pg.incidents| ensures Waiting(t, i) == Waiting(s, i) {}
  }

  lemma RowCovered(s: State, id: IncidentId, row: IncidentRow, now: int, pending: set<IncidentId>)
    requires Covered(s, now, pending) && id < |s.pg.incidents|
    requires row == s.pg.incidents[id] || row.status != Open || row.severity != 1
    ensures Covered(WithRow(s, id, row), now, pending)
  {
    var t := WithRow(s, id, row);
    forall i: nat | i < |s.pg.incidents| ensures Waiting(t, i) ==> Waiting(s, i) {}
  }

  lemma EscalateCovered(s: State, id: IncidentId, t: int, now: int, pending: set<IncidentId>)
    requires Covered(s, now, pending) && RowsOk(s.pg.incidents)
    ensures Covered(EscalateStep(s, id, t, true), now, pending)
  {
    var u := EscalateStep(s, id, t, true);
    forall i: nat | i < |s.pg.incidents| ensures Waiting(u, i) ==> Waiting(s, i) && (i != id || u == s) {
      if i == id && id in s.poppedEscalations { assert s.pg.incidents[id] in s.pg.incidents; }
    }
  }

  lemma {:induction false} RunCovered(
      cfg: Config, s: State, actions: seq<Action>, now: int, pending: set<IncidentId>)
    requires Covered(s, now, pending) && RowsOk(s.pg.incidents) && AllClean(actions)
    requires forall a <- actions :: Later(cfg, a, now)
    requires forall id <- pending :: PopEscalation(id) in actions
    ensures Covered(Run(cfg, s, actions), now, {})
    decreases |actions|
  {
    hide Step, Covered, RowsOk;
    if actions == [] {
      assert pending == {};
    } else {
      var a := actions[0];
      assert a in actions && actions == [a] + actions[1..];
      StepCovered(cfg, s, a, now, pending);
      StepForward(cfg, s, a);
      RunCovered(cfg, Step(cfg, s, a), actions[1..], now, Unpopped(pending, a));
    }
  }

  /** In every state that a run without store failures reaches, an open incident of severity 1
      is queued for escalation or in the hands of an escalation pass. */
  lemma {:induction false} OpenIncidentsAreQueued(cfg: Config, s: State, actions: seq<Action>)
    requires AllClean(actions) && RowsOk(s.pg.incidents) && Covered(s, 0, s.redis.escalations.Keys)
    ensures var t := Run(cfg, s, actions); Covered(t, 0, t.redis.escalations.Keys)
    decreases |actions|
  {
    hide Step, RowsOk;
    if actions == [] {
    } else {
      var a := actions[0];
      assert a in actions;
      var at := if a.Deliver? then a.d.env.now + cfg.escalationMs - 1
                     else if a.Timeout? then a.env.now + cfg.escalationMs - 1 else 0;
      StepCovered(cfg, s, a, at, s.redis.escalations.Keys);
      StepForward(cfg, s, a);
      OpenIncidentsAreQueued(cfg, Step(cfg, s, a), actions[1..]);
    }
  }

  /** Every open incident of severity 1 is queued for escalation or in the hands of a pass. */
  ghost predicate AllQueued(s: State) {
    RowsOk(s.pg.incidents) && Covered(s, 0, s.redis.escalations.Keys)
  }

  /** No open incident of severity 1 is due at `now`, or was popped and forgotten. */
  predicate NoneDue(s: State, now: int) {
    forall id: nat | id < |s.pg.incidents| :: Waiting(s, id) ==>
      id in s.redis.escalations && s.redis.escalations[id] > now
  }

  lemma RunKeepsQueued(cfg: Config, s: State, actions: seq<Action>)
    requires AllQueued(s) && AllClean(actions)
    ensures AllQueued(Run(cfg, s, actions))
  {
    hide RowsOk, Covered, Run;
    OpenIncidentsAreQueued(cfg, s, actions);
    RunForward(cfg, s, actions);
  }

  /** Let an escalation pass start at `now` in such a state: it pops every due id and handles
      every popped one before it returns, while everything else goes on in between. When it
      returns, no open incident of severity 1 is due. */
  lemma EscalationPass(cfg: Config, s: State, actions: seq<Action>, now: int)
    requires cfg.escalationMs > 0 && AllQueued(s) && AllClean(actions) && s.poppedEscalations == multiset{}
    requires forall a <- actions :: (a.Deliver? ==> a.d.env.now >= now) && (a.Timeout? ==> a.env.now >= now)
    requires forall id <- s.redis.escalations :: s.redis.escalations[id] <= now ==> PopEscalation(id) in actions
    requires Run(cfg, s, actions).poppedEscalations == multiset{}
    ensures NoneDue(Run(cfg, s, actions), now)
  {
    hide Run, RowsOk, Waiting;
    var due := set id | id in s.redis.escalations && s.redis.escalations[id] <= now;
    assert Covered(s, now, due);
    RunCovered(cfg, s, actions, now, due);
  }

  /** From the start of the system: after any failure-free run, such a pass leaves nothing due. */
  lemma EscalationPassLeavesNothingDue(cfg: Config, before: seq<Action>, actions: seq<Action>, now: int)
    requires cfg.escalationMs > 0 && AllClean(before) && AllClean(actions)
    requires forall a <- actions :: (a.Deliver? ==> a.d.env.now >= now) && (a.Timeout? ==> a.env.now >= now)
    requires var s := Run(cfg, INIT, before);
             && s.poppedEscalations == multiset{}
             && (forall id <- s.redis.escalations :: s.redis.escalations[id] <= now ==> PopEscalation(id) in actions)
             && Run(cfg, s, actions).poppedEscalations == multiset{}
    ensures NoneDue(Run(cfg, Run(cfg, INIT, before), actions), now)
  {
    hide Run, NoneDue;
    NoRows();
    RunKeepsQueued(cfg, INIT, before);
    EscalationPass(cfg, Run(cfg, INIT, before), actions, now);
  }

  lemma NoRows()
    ensures RowsOk(INIT.pg.incidents) && AllQueued(INIT)
  {}
}
