/** matcher/src/timer.rs: one turn of the loop that alternates the two expiry passes. */
module TimerWorker {
  import opened Model
  import opened Store
  import opened Matcher
  import opened Coherence
  import opened Incidents
  import opened Engine
  import Claiming
  import Timer

  lemma {:induction false} PopsMember(ids: seq<TxId>, tx: TxId)
    requires tx in ids
    ensures PopDeadline(tx) in Pops(ids)
  {
    if ids[0] == tx {
    } else {
      PopsMember(ids[1..], tx);
    }
  }

  lemma {:induction false} PopsOnly(ids: seq<TxId>)
    ensures forall a <- Pops(ids) :: a.PopDeadline?
  {
    if ids == [] {
    } else {
      PopsOnly(ids[1..]);
    }
  }

  lemma {:induction false} EscalationPopsMember(ids: seq<IncidentId>, id: IncidentId)
    requires id in ids
    ensures PopEscalation(id) in EscalationPops(ids)
  {
    if ids[0] == id {
    } else {
      EscalationPopsMember(ids[1..], id);
    }
  }

  lemma {:induction false} EscalationPopsOnly(ids: seq<IncidentId>)
    ensures forall a <- EscalationPops(ids) :: a.PopEscalation?
  {
    if ids == [] {
    } else {
      EscalationPopsOnly(ids[1..]);
    }
  }

  /** A pass of the object is a pass in the sense of module Timer. */
  lemma PassDone(cfg: Config, s: State, ids: seq<TxId>, handled: seq<Action>, now: int)
    requires cfg.timeoutMs > 0 && Inv(cfg, s) && s.popped == multiset{} && AllClean(handled)
    requires Claiming.IsSnapshot(s.redis.deadlines, now, ids) && forall a <- handled :: a.Timeout?
    requires Run(cfg, s, Pops(ids) + handled).popped == multiset{}
    ensures var t := Run(cfg, s, Pops(ids) + handled);
            forall tx <- t.windows :: t.windows[tx].deadline > now
  {
    hide Inv, Run, Pops;
    PopsOnly(ids);
    forall tx | tx in Timer.Due(s, now) ensures PopDeadline(tx) in Pops(ids) + handled { PopsMember(ids, tx); }
    Timer.PassLeavesNothingDue(cfg, s, Pops(ids) + handled, now);
  }

  /** An escalation pass of the object is one in the sense of module Incidents. */
  lemma EscalationPassDone(cfg: Config, s: State, ids: seq<IncidentId>, handled: seq<Action>, now: int)
    requires cfg.escalationMs > 0 && AllQueued(s) && s.poppedEscalations == multiset{} && AllClean(handled)
    requires Claiming.IsSnapshot(s.redis.escalations, now, ids) && forall a <- handled :: a.Escalate?
    requires Run(cfg, s, EscalationPops(ids) + handled).poppedEscalations == multiset{}
    ensures NoneDue(Run(cfg, s, EscalationPops(ids) + handled), now)
  {
    hide AllQueued, Run, EscalationPops, NoneDue;
    EscalationPopsOnly(ids);
    forall id <- s.redis.escalations | s.redis.escalations[id] <= now
      ensures PopEscalation(id) in EscalationPops(ids) + handled
    {
      EscalationPopsMember(ids, id);
    }
    EscalationPass(cfg, s, EscalationPops(ids) + handled, now);
  }

  /** What a window pass leaves for the rest of the turn, whether or not its pop failed. */
  lemma AfterWindowPass(
      cfg: Config, s: State, t: State, ok: bool, ids: seq<TxId>, handled: seq<Action>, now: int)
    requires ok ==> Claiming.IsSnapshot(s.redis.deadlines, now, ids) && t == Run(cfg, s, Pops(ids) + handled)
    requires forall a <- handled :: a.Timeout?
    requires !ok ==> t.pg == s.pg && t.redis.escalations == s.redis.escalations
    requires t.popped == s.popped && t.poppedEscalations == s.poppedEscalations
    ensures ok && AllClean(handled) && cfg.timeoutMs > 0 && Inv(cfg, s) && s.popped == multiset{} ==>
              forall tx <- t.windows :: t.windows[tx].deadline > now
    ensures AllQueued(s) && AllClean(handled) ==> AllQueued(t)
  {
    hide Inv, AllQueued, Run, Pops;
    if ok && AllClean(handled) {
      if cfg.timeoutMs > 0 && Inv(cfg, s) && s.popped == multiset{} { PassDone(cfg, s, ids, handled, now); }
      if AllQueued(s) {
        PopsOnly(ids);
        RunKeepsQueued(cfg, s, Pops(ids) + handled);
      }
    } else if !ok && AllQueued(s) {
      FailedPopKeepsQueued(s, t);
    }
  }

  lemma FailedPopKeepsQueued(s: State, t: State)
    requires AllQueued(s) && t.pg == s.pg && t.redis.escalations == s.redis.escalations
    requires t.poppedEscalations == s.poppedEscalations
    ensures AllQueued(t)
  {
    hide RowsOk;
    SameIncidentState(s, t, 0, s.redis.escalations.Keys);
  }

  lemma AfterEscalationPass(
      cfg: Config, t: State, u: State, ok: bool, ids: seq<IncidentId>, handled: seq<Action>, now: int)
    requires ok ==>
               Claiming.IsSnapshot(t.redis.escalations, now, ids) && u == Run(cfg, t, EscalationPops(ids) + handled)
    requires (forall a <- handled :: a.Escalate?) && u.poppedEscalations == t.poppedEscalations
    ensures ok && AllClean(handled) && cfg.escalationMs > 0 && AllQueued(t) && t.poppedEscalations == multiset{} ==>
              NoneDue(u, now)
  {
    hide AllQueued, Run, EscalationPops, NoneDue;
    if ok && AllClean(handled) && cfg.escalationMs > 0 && AllQueued(t) && t.poppedEscalations == multiset{} {
      EscalationPassDone(cfg, t, ids, handled, now);
    }
  }

  /** One turn: a window pass, then an escalation pass, whether or not the first failed. What a
      failure-free pass promises about its clock holds when the turn ends. A pass or a call that
      did not complete is put down to a command that failed; without failures, all of them did. */
  method Turn(
      engine: MatchingEngine, windowsNow: int, envOf: TxId -> Env, escalationsNow: int, clock: IncidentId -> int)
    returns (ghost swept: bool, ghost handled: seq<Action>, ghost raised: bool, ghost escalated: seq<Action>)
    requires engine.Valid()
    modifies engine`windows, engine`popped, engine`poppedEscalations, engine.redis, engine.pg
    ensures engine.Valid() && engine.popped == old(engine.popped)
    ensures engine.poppedEscalations == old(engine.poppedEscalations)
    ensures swept && AllClean(handled) && engine.cfg.timeoutMs > 0
            && Inv(engine.cfg, old(engine.Now())) && old(engine.popped) == multiset{} ==>
              forall tx <- engine.windows :: engine.windows[tx].deadline > windowsNow
    ensures raised && AllClean(handled) && AllClean(escalated) && engine.cfg.escalationMs > 0
            && AllQueued(old(engine.Now())) && old(engine.poppedEscalations) == multiset{} ==>
              NoneDue(engine.Now(), escalationsNow)
    ensures engine.Failures() >=
              old(engine.Failures()) + (if swept then 0 else 1) + (if raised then 0 else 1) +
              StopCount(handled) + StopCount(escalated)
    ensures engine.Failures() == old(engine.Failures()) && MetricsUp(envOf) ==>
              swept && raised && AllClean(handled) && AllClean(escalated)
  {
    hide Inv, Run, AllQueued, NoneDue, StopCount, AllClean, Pops, EscalationPops, TxsOf, IdsOf, Claiming.IsSnapshot;
    ghost var s := engine.Now();
    var r, _, ids, done := engine.ProcessExpiredWindows(windowsNow, envOf);
    ghost var t := engine.Now();
    AfterWindowPass(engine.cfg, s, t, r.Success?, ids, done, windowsNow);
    var r', _, ids', done' := engine.ProcessExpiredEscalations(escalationsNow, clock);
    AfterEscalationPass(engine.cfg, t, engine.Now(), r'.Success?, ids', done', escalationsNow);
    swept, handled, raised, escalated := r.Success?, done, r'.Success?, done';
    NoStops();
    UnstoppedClean(handled, escalated, envOf, clock);
  }

  /** Both metrics commands of every timeout get through. */
  ghost predicate MetricsUp(envOf: TxId -> Env) {
    forall tx: TxId :: envOf(tx).processedUp && envOf(tx).matchUp
  }

  lemma UnstoppedClean(handled: seq<Action>, escalated: seq<Action>, envOf: TxId -> Env, clock: IncidentId -> int)
    requires Timeouts(handled, envOf) && Escalations(escalated, clock)
    ensures StopCount(handled) == 0 && MetricsUp(envOf) ==> AllClean(handled)
    ensures StopCount(escalated) == 0 ==> AllClean(escalated)
  {
    hide StopCount;
    NoneStopped(handled);
    NoneStopped(escalated);
  }
}
