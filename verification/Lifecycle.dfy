/** What every column of an incident row says about the run that led to it. */
module Lifecycle {
  import opened Wrappers
  import opened Model
  import opened Store
  import opened Matcher
  import opened Incidents

  datatype Transition = Acknowledging | Resolving | Escalating

  function Stamp(kind: Transition, row: IncidentRow): Option<int> {
    match kind
    case Acknowledging => row.acknowledgedAt
    case Resolving => row.resolvedAt
    case Escalating => row.escalatedAt
  }

  /** The action meets the row in a state from which the transition is allowed. */
  predicate Happens(kind: Transition, s: State, a: Action, id: IncidentId, at: int) {
    && id < |s.pg.incidents|
    && var row := s.pg.incidents[id];
       match kind
       case Acknowledging => a == Acknowledge(id, at) && row.status == Open
       case Resolving => a == Resolve(id, at) && row.status != Resolved
       case Escalating =>
         a == Escalate(id, at, true) && id in s.poppedEscalations && row.status == Open && row.severity == 1
  }

  /** Somewhere in the run the transition happened, at that time. */
  ghost predicate Happened(kind: Transition, cfg: Config, actions: seq<Action>, id: IncidentId, at: int) {
    exists i | 0 <= i < |actions| :: Happens(kind, Run(cfg, INIT, actions[..i]), actions[i], id, at)
  }

  // ----- One step -----

  predicate Fresh(row: IncidentRow) {
    row.status == Open && row.acknowledgedAt.None? && row.resolvedAt.None? && row.escalatedAt.None?
  }

  ghost predicate Appended(before: seq<IncidentRow>, after: seq<IncidentRow>) {
    before <= after && forall id | |before| <= id < |after| :: Fresh(after[id])
  }

  /** Effects only append rows, and fresh ones. */
  lemma {:induction false} ApplyAppends(s: State, ops: seq<Op>)
    ensures Appended(s.pg.incidents, Apply(s, ops).pg.incidents)
    decreases |ops|
  {
    hide ApplyOp, Fresh;
    if ops == [] {
    } else {
      OpAppends(s, ops[0]);
      ApplyAppends(ApplyOp(s, ops[0]), ops[1..]);
      AppendedTwice(s.pg.incidents, ApplyOp(s, ops[0]).pg.incidents, Apply(s, ops).pg.incidents);
    }
  }

  lemma AppendedTwice(a: seq<IncidentRow>, b: seq<IncidentRow>, c: seq<IncidentRow>)
    requires Appended(a, b) && Appended(b, c)
    ensures Appended(a, c)
  {
    hide Fresh;
    forall id | |a| <= id < |c| ensures Fresh(c[id]) {
      if id < |b| { assert c[id] == b[id]; }
    }
  }

  lemma OpAppends(s: State, op: Op)
    ensures Appended(s.pg.incidents, ApplyOp(s, op).pg.incidents)
  {}

  lemma HandlerAppends(cfg: Config, s: State, a: Action)
    requires a.Deliver? || a.Timeout?
    ensures Appended(s.pg.incidents, Step(cfg, s, a).pg.incidents)
  {
    hide Apply, Performed, DeliverOps, TimeoutOps, Fresh;
    match a
    case Deliver(d, stop) => ApplyAppends(s, Performed(DeliverOps(cfg, s, d), stop));
    case Timeout(tx, env, stop) =>
      if tx in s.popped {
        ApplyAppends(s.(popped := s.popped - multiset{tx}),
                     Performed(TimeoutOps(cfg, tx, Lookup(s.windows, tx), env), stop));
      } else {
        assert Step(cfg, s, a) == s;
      }
  }

  /** A timestamp after a step is the one from before, or that of the transition which this
      step is. */
  lemma StepStamps(cfg: Config, s: State, a: Action, kind: Transition, id: IncidentId, at: int)
    requires RowsOk(s.pg.incidents) && id < |Step(cfg, s, a).pg.incidents|
    ensures Stamp(kind, Step(cfg, s, a).pg.incidents[id]) == Some(at) <==>
              || Happens(kind, s, a, id, at)
              || (id < |s.pg.incidents| && Stamp(kind, s.pg.incidents[id]) == Some(at))
  {
    hide Step, RowsOk;
    if a.Deliver? || a.Timeout? {
      HandlerAppends(cfg, s, a);
    } else {
      RowActionStamps(cfg, s, a, kind, id, at);
    }
  }

  lemma RowActionStamps(cfg: Config, s: State, a: Action, kind: Transition, id: IncidentId, at: int)
    requires !a.Deliver? && !a.Timeout? && RowsOk(s.pg.incidents) && id < |Step(cfg, s, a).pg.incidents|
    ensures Stamp(kind, Step(cfg, s, a).pg.incidents[id]) == Some(at) <==>
              || Happens(kind, s, a, id, at)
              || (id < |s.pg.incidents| && Stamp(kind, s.pg.incidents[id]) == Some(at))
  {
    hide Apply, DeliverOps, TimeoutStep, Stamp, EscalatedRow, AcknowledgedRow, ResolvedRow, RowOk;
    if id < |s.pg.incidents| {
      var row := s.pg.incidents[id];
      assert RowOk(row);
      match a
      case Escalate(_, now, _) => EscalatedStamps(row, now, kind, at);
      case Acknowledge(_, now) => AcknowledgedStamps(row, now, kind, at);
      case Resolve(_, now) => ResolvedStamps(row, now, kind, at);
      case _ =>
    }
  }

  lemma EscalatedStamps(row: IncidentRow, now: int, kind: Transition, at: int)
    requires RowOk(row)
    ensures Stamp(kind, EscalatedRow(row, now)) == Some(at) <==>
              || (kind.Escalating? && now == at && row.status == Open && row.severity == 1)
              || Stamp(kind, row) == Some(at)
  {}

  lemma AcknowledgedStamps(row: IncidentRow, now: int, kind: Transition, at: int)
    requires RowOk(row)
    ensures Stamp(kind, AcknowledgedRow(row, now)) == Some(at) <==>
              || (kind.Acknowledging? && now == at && row.status == Open)
              || Stamp(kind, row) == Some(at)
  {}

  lemma ResolvedStamps(row: IncidentRow, now: int, kind: Transition, at: int)
    requires RowOk(row)
    ensures Stamp(kind, ResolvedRow(row, now)) == Some(at) <==>
              || (kind.Resolving? && now == at && row.status != Resolved)
              || Stamp(kind, row) == Some(at)
  {}

  // ----- Runs -----

  lemma HappenedSnoc(kind: Transition, cfg: Config, actions: seq<Action>, a: Action, id: IncidentId, at: int)
    ensures Happened(kind, cfg, actions + [a], id, at) <==>
              Happened(kind, cfg, actions, id, at) || Happens(kind, Run(cfg, INIT, actions), a, id, at)
  {
    hide Happens, Run;
    var all, n := actions + [a], |actions|;
    assert all[..n] == actions && all[n] == a;
    assert forall i | 0 <= i < n :: all[..i] == actions[..i] && all[i] == actions[i];
    if Happened(kind, cfg, actions, id, at) {
      var i :| 0 <= i < n && Happens(kind, Run(cfg, INIT, actions[..i]), actions[i], id, at);
      assert Happens(kind, Run(cfg, INIT, all[..i]), all[i], id, at);
    }
    if Happens(kind, Run(cfg, INIT, actions), a, id, at) {
      assert Happens(kind, Run(cfg, INIT, all[..n]), all[n], id, at);
    }
  }

  /** After every run, whatever failed in it: an incident carries a timestamp exactly when the
      run contains the transition that the timestamp is for, met in a state that allows it, and
      then it is the time of that transition. */
  lemma {:induction false} StampIffHappened(
      cfg: Config, actions: seq<Action>, kind: Transition, id: IncidentId, at: int)
    requires id < |Run(cfg, INIT, actions).pg.incidents|
    ensures Stamp(kind, Run(cfg, INIT, actions).pg.incidents[id]) == Some(at) <==> Happened(kind, cfg, actions, id, at)
    decreases |actions|
  {
    hide Step, Happens, Stamp, RowsOk;
    if actions == [] {
    } else {
      var n := |actions| - 1;
      var front, a := actions[..n], actions[n];
      assert actions == front + [a];
      var s := Run(cfg, INIT, front);
      RunSnoc(cfg, INIT, front, a);
      NoRows();
      RunForward(cfg, INIT, front);
      StepStamps(cfg, s, a, kind, id, at);
      HappenedSnoc(kind, cfg, front, a, id, at);
      if id < |s.pg.incidents| {
        StampIffHappened(cfg, front, kind, id, at);
      } else if Happened(kind, cfg, front, id, at) {
        NothingBeforeCreation(cfg, front, kind, id, at);
      }
    }
  }

  /** No transition meets an incident before it exists. */
  lemma NothingBeforeCreation(cfg: Config, actions: seq<Action>, kind: Transition, id: IncidentId, at: int)
    requires Happened(kind, cfg, actions, id, at)
    ensures id < |Run(cfg, INIT, actions).pg.incidents|
  {
    hide Run, RowsOk, Forward;
    var i :| 0 <= i < |actions| && Happens(kind, Run(cfg, INIT, actions[..i]), actions[i], id, at);
    assert actions == actions[..i] + actions[i..];
    RunConcat(cfg, INIT, actions[..i], actions[i..]);
    NoRows();
    RunForward(cfg, INIT, actions[..i]);
    RunForward(cfg, Run(cfg, INIT, actions[..i]), actions[i..]);
  }

  ghost predicate EverHappened(kind: Transition, cfg: Config, actions: seq<Action>, id: IncidentId) {
    exists at: int :: Happened(kind, cfg, actions, id, at)
  }

  /** Status, severity and timestamps of an incident are exactly the record of what happened to
      it: severity 2 iff it was escalated, resolved iff it was resolved, acknowledged iff it was
      acknowledged and not resolved, open iff neither. */
  lemma RowRecordsTheRun(cfg: Config, actions: seq<Action>, id: IncidentId)
    requires id < |Run(cfg, INIT, actions).pg.incidents|
    ensures var row := Run(cfg, INIT, actions).pg.incidents[id];
            var acked := EverHappened(Acknowledging, cfg, actions, id);
            var resolved := EverHappened(Resolving, cfg, actions, id);
            && row.severity == (if EverHappened(Escalating, cfg, actions, id) then 2 else 1)
            && row.status == (if resolved then Resolved else if acked then Acknowledged else Open)
            && (forall at: int :: row.acknowledgedAt == Some(at) <==> Happened(Acknowledging, cfg, actions, id, at))
            && (forall at: int :: row.resolvedAt == Some(at) <==> Happened(Resolving, cfg, actions, id, at))
            && (forall at: int :: row.escalatedAt == Some(at) <==> Happened(Escalating, cfg, actions, id, at))
  {
    hide Run, Happened;
    var row := Run(cfg, INIT, actions).pg.incidents[id];
    NoRows();
    RunForward(cfg, INIT, actions);
    assert RowOk(row);
    forall kind, at: int
      ensures Stamp(kind, row) == Some(at) <==> Happened(kind, cfg, actions, id, at)
    {
      StampIffHappened(cfg, actions, kind, id, at);
    }
    forall kind ensures Stamp(kind, row).Some? <==> EverHappened(kind, cfg, actions, id) {
      if Stamp(kind, row).Some? { assert Happened(kind, cfg, actions, id, Stamp(kind, row).value); }
    }
    assert row.acknowledgedAt == Stamp(Acknowledging, row);
    assert row.resolvedAt == Stamp(Resolving, row) && row.escalatedAt == Stamp(Escalating, row);
  }
}
