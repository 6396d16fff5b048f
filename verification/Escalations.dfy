/** When incidents are escalated, counted from their creation. */
module Escalations {
  import opened Wrappers
  import opened Model
  import opened Store
  import opened Matcher
  import opened Incidents
  import Claiming

  /** The clock that an action reads, if it can create incidents. */
  function ClockRead(a: Action): int {
    match a
    case Deliver(d, _) => d.env.now
    case Timeout(_, env, _) => env.now
    case _ => 0
  }

  /** When each incident of a run was created: one entry for each row, in order. */
  function Created(cfg: Config, actions: seq<Action>): seq<int>
    decreases |actions|
  {
    if actions == [] then []
    else
      var last := |actions| - 1;
      var before, after := Run(cfg, INIT, actions[..last]), Run(cfg, INIT, actions);
      var added := |after.pg.incidents| - |before.pg.incidents|;
      Created(cfg, actions[..last]) + seq(if added > 0 then added else 0, _ => ClockRead(actions[last]))
  }

  // ----- One step -----

  /** Every new incident is queued for `at`, and no other score changes. */
  ghost predicate QueuedFor(s: State, t: State, at: int) {
    && |s.pg.incidents| <= |t.pg.incidents|
    && (forall id: nat | |s.pg.incidents| <= id < |t.pg.incidents| :: Lookup(t.redis.escalations, id) == Some(at))
    && (forall id: nat | id < |s.pg.incidents| :: Lookup(t.redis.escalations, id) == Lookup(s.redis.escalations, id))
    && (forall id <- t.redis.escalations :: id < |t.pg.incidents|)
  }

  ghost predicate IdsExist(s: State) {
    forall id <- s.redis.escalations :: id < |s.pg.incidents|
  }

  lemma {:induction false} ApplyQueues(s: State, ops: seq<Op>, at: int)
    requires IdsExist(s) && Paired(ops, at)
    ensures QueuedFor(s, Apply(s, ops), at)
    decreases |ops|
  {
    if ops == [] {
    } else if ops[0].CreateIncident? {
      var s1 := ApplyOp(s, ops[0]);
      var s2 := ApplyOp(s1, ops[1]);
      assert ops[1..][1..] == ops[2..] && ops[1..] != [];
      assert Apply(s, ops) == Apply(s2, ops[2..]);
      PairQueues(s, ops[0].incident, at);
      ApplyQueues(s2, ops[2..], at);
      QueuedTwice(s, s2, Apply(s, ops), at);
    } else {
      var s1 := ApplyOp(s, ops[0]);
      OtherQueues(s, ops[0], at);
      ApplyQueues(s1, ops[1..], at);
      QueuedTwice(s, s1, Apply(s, ops), at);
    }
  }

  lemma PairQueues(s: State, i: Incident, at: int)
    requires IdsExist(s)
    ensures var t := ApplyOp(ApplyOp(s, CreateIncident(i)), AddEscalation(at)); QueuedFor(s, t, at) && IdsExist(t)
  {}

  lemma OtherQueues(s: State, op: Op, at: int)
    requires IdsExist(s) && !op.CreateIncident? && !op.AddEscalation?
    ensures QueuedFor(s, ApplyOp(s, op), at) && IdsExist(ApplyOp(s, op))
  {
    var t := ApplyOp(s, op);
    assert t.pg.incidents == s.pg.incidents && t.redis.escalations == s.redis.escalations;
  }

  lemma QueuedTwice(s: State, t: State, u: State, at: int)
    requires QueuedFor(s, t, at) && QueuedFor(t, u, at)
    ensures QueuedFor(s, u, at)
  {
    forall id: nat | |s.pg.incidents| <= id < |u.pg.incidents| ensures Lookup(u.redis.escalations, id) == Some(at) {
      if id < |t.pg.incidents| { assert Lookup(t.redis.escalations, id) == Some(at); }
    }
  }

  /** Every incident that a step without store failures inserts is queued for that step's clock plus
      the configured delay, whatever else the step does; no other score changes. */
  lemma NewIncidentsQueued(cfg: Config, s: State, a: Action)
    requires IdsExist(s) && Clean(a) && (a.Deliver? || a.Timeout?)
    ensures QueuedFor(s, Step(cfg, s, a), ClockRead(a) + cfg.escalationMs)
  {
    hide Apply, Paired, EventOps, TimeoutOps;
    match a
    case Deliver(d, _) =>
      EventPaired(cfg, d.event.eventId in s.redis.claims, Registered(s, d.event), Lookup(s.windows, d.event.tx), d);
      ApplyQueues(s, DeliverOps(cfg, s, d), d.env.now + cfg.escalationMs);
    case Timeout(tx, env, _) =>
      if tx in s.popped {
        var t := s.(popped := s.popped - multiset{tx});
        TimeoutPaired(cfg, tx, Lookup(s.windows, tx), env);
        ApplyQueues(t, TimeoutOps(cfg, tx, Lookup(s.windows, tx), env), env.now + cfg.escalationMs);
      }
  }

  lemma OtherSteps(cfg: Config, s: State, a: Action)
    requires IdsExist(s) && !a.Deliver? && !a.Timeout?
    ensures var t := Step(cfg, s, a);
            && |t.pg.incidents| == |s.pg.incidents|
            && forall id <- t.redis.escalations ::
                 id in s.redis.escalations && t.redis.escalations[id] == s.redis.escalations[id]
  {}

  // ----- Runs -----

  /** A score is the creation time plus the delay. */
  ghost predicate OnSchedule(cfg: Config, actions: seq<Action>) {
    var s, created := Run(cfg, INIT, actions), Created(cfg, actions);
    && |created| == |s.pg.incidents|
    && forall id <- s.redis.escalations ::
         id < |created| && s.redis.escalations[id] == created[id] + cfg.escalationMs
  }

  lemma {:induction false} RunOnSchedule(cfg: Config, actions: seq<Action>)
    requires AllClean(actions)
    ensures OnSchedule(cfg, actions)
    decreases |actions|
  {
    hide Step, RowsOk, RowsForward;
    if actions == [] {
    } else {
      var n := |actions| - 1;
      var front, a := actions[..n], actions[n];
      assert a in actions && actions == front + [a];
      RunOnSchedule(cfg, front);
      RunSnoc(cfg, INIT, front, a);
      var s, t := Run(cfg, INIT, front), Run(cfg, INIT, actions);
      if a.Deliver? || a.Timeout? { NewIncidentsQueued(cfg, s, a); } else { OtherSteps(cfg, s, a); }
      OneMoreStep(cfg, actions);
    }
  }

  lemma OneMoreStep(cfg: Config, actions: seq<Action>)
    requires actions != []
    requires var front, a := actions[..|actions| - 1], actions[|actions| - 1];
             var s, t := Run(cfg, INIT, front), Run(cfg, INIT, actions);
             && OnSchedule(cfg, front)
             && (if a.Deliver? || a.Timeout? then QueuedFor(s, t, ClockRead(a) + cfg.escalationMs)
                 else && |t.pg.incidents| == |s.pg.incidents|
                      && forall id <- t.redis.escalations ::
                           id in s.redis.escalations && t.redis.escalations[id] == s.redis.escalations[id])
    ensures OnSchedule(cfg, actions)
  {
    hide Run;
    var front, a := actions[..|actions| - 1], actions[|actions| - 1];
    var s, t := Run(cfg, INIT, front), Run(cfg, INIT, actions);
    forall id <- t.redis.escalations
      ensures id < |Created(cfg, actions)| && t.redis.escalations[id] == Created(cfg, actions)[id] + cfg.escalationMs
    {
      if a.Deliver? || a.Timeout? { ScoreAfter(s, t, ClockRead(a) + cfg.escalationMs, id); }
    }
  }

  lemma ScoreAfter(s: State, t: State, at: int, id: IncidentId)
    requires QueuedFor(s, t, at) && id in t.redis.escalations
    ensures id < |t.pg.incidents|
    ensures if id < |s.pg.incidents|
            then id in s.redis.escalations && t.redis.escalations[id] == s.redis.escalations[id]
            else t.redis.escalations[id] == at
  {
    if id < |s.pg.incidents| {
      assert Lookup(t.redis.escalations, id) == Lookup(s.redis.escalations, id);
    } else {
      assert Lookup(t.redis.escalations, id) == Some(at);
    }
  }

  lemma CreatedStays(cfg: Config, earlier: seq<Action>, later: seq<Action>)
    ensures Created(cfg, earlier) <= Created(cfg, earlier + later)
    decreases |later|
  {
    hide Run;
    if later == [] {
      assert earlier + later == earlier;
    } else {
      var n := |later| - 1;
      assert (earlier + later)[..|earlier + later| - 1] == earlier + later[..n];
      CreatedStays(cfg, earlier, later[..n]);
    }
  }

  /** Not before its time: what a pass takes out of the queue at `now` was created at least the
      configured delay earlier. */
  lemma NoneTakenEarly(cfg: Config, before: seq<Action>, now: int, ids: seq<IncidentId>)
    requires AllClean(before)
    requires Claiming.IsSnapshot(Run(cfg, INIT, before).redis.escalations, now, ids)
    ensures forall id <- ids :: id < |Created(cfg, before)| && Created(cfg, before)[id] + cfg.escalationMs <= now
  {
    RunOnSchedule(cfg, before);
  }

  /** And in time: a failure-free escalation pass that starts at least the configured delay after
      an incident's creation leaves that incident acknowledged, resolved or raised. */
  lemma RaisedInTime(cfg: Config, before: seq<Action>, actions: seq<Action>, now: int, id: IncidentId)
    requires cfg.escalationMs > 0 && AllClean(before) && AllClean(actions)
    requires forall a <- actions :: (a.Deliver? ==> a.d.env.now >= now) && (a.Timeout? ==> a.env.now >= now)
    requires var s := Run(cfg, INIT, before);
             && s.poppedEscalations == multiset{}
             && (forall id <- s.redis.escalations :: s.redis.escalations[id] <= now ==> PopEscalation(id) in actions)
             && Run(cfg, s, actions).poppedEscalations == multiset{}
    requires id < |Created(cfg, before)| && Created(cfg, before)[id] + cfg.escalationMs <= now
    ensures var rows := Run(cfg, INIT, before + actions).pg.incidents;
            id < |rows| && (rows[id].status != Open || rows[id].severity == 2)
  {
    hide Run, Created, RowsOk;
    RunConcat(cfg, INIT, before, actions);
    EscalationPassLeavesNothingDue(cfg, before, actions, now);
    RunOnSchedule(cfg, before + actions);
    CreatedStays(cfg, before, actions);
    NoRows();
    RunForward(cfg, INIT, before + actions);
    SeverityOneOrTwo(Run(cfg, INIT, before + actions).pg.incidents, id);
  }

  lemma SeverityOneOrTwo(rows: seq<IncidentRow>, id: nat)
    requires RowsOk(rows)
    ensures id < |rows| ==> rows[id].severity == 1 || rows[id].severity == 2
  {
    if id < |rows| { assert RowOk(rows[id]); }
  }
}
