/** matcher/src/matcher.rs as an object. Each method performs the effects
    that module Matcher lists for it, or a prefix of them that ends where a store command
    failed; so every run of the objects is a run of module Matcher's steps. */
module Engine {
  import opened Wrappers
  import opened Model
  import opened Store
  import opened Matcher
  import opened StoreClients
  import opened Faults
  import opened Cells
  import Claiming

  const MAX_TASKS := 50

  lemma {:induction false} DetailOpsAt(tx: TxId, details: seq<Detail>)
    ensures |DetailOps(tx, details)| == |details|
    ensures forall i | 0 <= i < |details| :: DetailOps(tx, details)[i] == UpsertDetail(tx, details[i])
    decreases |details|
  {
    if details == [] {
    } else {
      DetailOpsAt(tx, details[1..]);
    }
  }

  lemma {:induction false} VerdictOpsOf(cfg: Config, incidents: seq<Incident>, now: int, i: nat)
    requires i < |incidents|
    ensures PersistAllOps(cfg, incidents[i..], now) ==
            PersistIncidentOps(cfg, incidents[i], now) + PersistAllOps(cfg, incidents[i + 1..], now)
  {
    assert incidents[i..][0] == incidents[i] && incidents[i..][1..] == incidents[i + 1..];
  }

  /** A failed prefix is what a stopped step performed. */
  lemma DidIsPerformed(ops: seq<Op>, done: seq<Op>, ok: bool)
    requires Did(ops, done, ok)
    ensures done == Performed(ops, if ok then None else Some(|done|))
  {}

  class MatchingEngine {
    const cfg: Config
    const redis: RedisStore
    const pg: PostgresStore
    var windows: map<TxId, Window>
    ghost var popped: multiset<TxId>
    ghost var poppedEscalations: multiset<IncidentId>

    ghost function Now(): State
      reads this, redis, pg
    {
      State(windows, redis.db, pg.db, popped, poppedEscalations)
    }

    /** How many commands have failed, save for the metrics. */
    ghost function Failures(): nat
      reads redis, pg
    {
      redis.failures + pg.failures
    }

    constructor (cfg: Config, redis: RedisStore, pg: PostgresStore)
      ensures this.cfg == cfg && this.redis == redis && this.pg == pg
      ensures windows == map[] && popped == multiset{} && poppedEscalations == multiset{}
    {
      this.cfg, this.redis, this.pg := cfg, redis, pg;
      windows, popped, poppedEscalations := map[], multiset{}, multiset{};
    }

    /** restore_from_redis: the checkpoints whose keys were scanned and fetched, if all scans got
        through. */
    method RestoreFromRedis(batches: seq<seq<TxId>>, scans: nat -> bool, gets: (nat, nat) -> bool)
      returns (r: Result<()>)
      requires windows == map[]
      requires forall tx <- redis.db.checkpoints :: redis.db.checkpoints[tx].tx == tx
      modifies this`windows
      ensures r.Success? <==> forall i | 0 <= i < |batches| :: scans(i)
      ensures r.Success? ==>
                windows == map tx | tx in redis.db.checkpoints && Fetched(batches, gets, tx, |batches|) ::
                             redis.db.checkpoints[tx]
      ensures r.Failure? ==> windows == map[]
    {
      hide Fetched;
      var loaded := redis.LoadAllWindows(batches, scans, gets);
      if loaded.Failure? { return Failure; }
      var scan := loaded.value;
      for i := 0 to |scan|
        invariant windows == Restore(scan[..i])
      {
        assert scan[..i + 1][..i] == scan[..i];
        windows := windows[scan[i].tx := scan[i]];
      }
      assert scan[..|scan|] == scan;
      RestoreHolds(scan, redis.db.checkpoints);
      forall tx | tx in redis.db.checkpoints && Fetched(batches, gets, tx, |batches|) ensures tx in windows {
        assert redis.db.checkpoints[tx] in scan;
      }
      r := Success(());
    }

    method PersistIncident(incident: Incident, now: int) returns (r: Result<()>, ghost done: seq<Op>)
      modifies redis, pg
      ensures Did(PersistIncidentOps(cfg, incident, now), done, r.Success?)
      ensures Now() == Apply(old(Now()), done)
      ensures Failures() == old(Failures()) + Failed(r)
    {
      hide Apply, ApplyOp, RedisOp, PostgresOp;
      ghost var s0 := Now();
      done := [];
      assert Apply(s0, []) == s0 by { ApplyNone(s0); }
      IncidentEffects(Now(), incident, now + cfg.escalationMs);
      var created := pg.CreateIncident(incident);
      if created.Failure? { return Failure, done; }
      ApplySnoc(s0, done, CreateIncident(incident));
      done := done + [CreateIncident(incident)];
      if incident.severity == 1 {
        IncidentEffects(Now(), incident, now + cfg.escalationMs);
        assert created.value == |pg.db.incidents| - 1 by { OneMoreIncident(s0.pg, incident); }
        var added := redis.AddEscalation(created.value, now + cfg.escalationMs);
        if added.Failure? { return Failure, done; }
        ApplySnoc(s0, done, AddEscalation(now + cfg.escalationMs));
        done := done + [AddEscalation(now + cfg.escalationMs)];
      }
      IncidentEffects(Now(), incident, now + cfg.escalationMs);
      r := redis.Publish();
      if r.Failure? { return; }
      ApplySnoc(s0, done, Publish);
      done := done + [Publish];
    }

    method CleanupWindow(tx: TxId) returns (r: Result<()>, ghost done: seq<Op>)
      modifies this`windows, redis
      ensures Did(CleanupOps(tx), done, r.Success?)
      ensures Now() == Apply(old(Now()), done)
      ensures Failures() == old(Failures()) + Failed(r)
    {
      hide Apply, ApplyOp, RedisOp;
      ghost var s0, ops := Now(), CleanupOps(tx);
      windows := windows - {tx};
      done := [RemoveWindow(tx)];
      assert Now() == Apply(s0, done) by { ApplyOne(s0, RemoveWindow(tx)); MemoryEffect(s0, RemoveWindow(tx)); }
      assert done == ops[..1];
      RedisEffect(Now(), DeleteWindow(tx));
      r := redis.DeleteWindow(tx);
      if r.Failure? { return; }
      assert Now() == Apply(s0, done + [DeleteWindow(tx)]) by { ApplySnoc(s0, done, DeleteWindow(tx)); }
      done := done + [DeleteWindow(tx)];
      assert done == ops[..2];
      RedisEffect(Now(), RemoveDeadline(tx));
      r := redis.RemoveDeadline(tx);
      if r.Failure? { return; }
      assert Now() == Apply(s0, done + [RemoveDeadline(tx)]) by { ApplySnoc(s0, done, RemoveDeadline(tx)); }
      done := done + [RemoveDeadline(tx)];
      assert done == ops[..3];
      RedisEffect(Now(), CleanupSources(tx));
      r := redis.CleanupSources(tx);
      if r.Failure? { return; }
      assert Now() == Apply(s0, done + [CleanupSources(tx)]) by { ApplySnoc(s0, done, CleanupSources(tx)); }
      done := done + [CleanupSources(tx)];
      assert done == ops;
    }

    method UpsertReconciliationDetails(tx: TxId, details: seq<Detail>) returns (r: Result<()>, ghost done: seq<Op>)
      modifies pg
      ensures Did(DetailOps(tx, details), done, r.Success?)
      ensures Now() == Apply(old(Now()), done)
      ensures Failures() == old(Failures()) + Failed(r)
    {
      hide Apply;
      ghost var s0, ops := Now(), DetailOps(tx, details);
      DetailOpsAt(tx, details);
      done := [];
      assert Apply(s0, []) == s0 by { ApplyNone(s0); }
      for i := 0 to |details|
        invariant done == ops[..i] && Now() == Apply(s0, done)
        invariant windows == s0.windows && redis.db == s0.redis && Failures() == old(Failures())
      {
        r := pg.UpsertDetail(tx, details[i]);
        if r.Failure? { return; }
        ApplySnoc(s0, done, ops[i]);
        done := done + [ops[i]];
        assert ops[..i + 1] == ops[..i] + [ops[i]];
      }
      assert ops[..|ops|] == ops;
      r := Success(());
    }

    method PersistAll(incidents: seq<Incident>, now: int) returns (r: Result<()>, ghost done: seq<Op>)
      modifies redis, pg
      ensures Did(PersistAllOps(cfg, incidents, now), done, r.Success?)
      ensures Now() == Apply(old(Now()), done)
      ensures Failures() == old(Failures()) + Failed(r)
    {
      hide Apply, PersistIncidentOps;
      ghost var s0, ops := Now(), PersistAllOps(cfg, incidents, now);
      done := [];
      assert Apply(s0, []) == s0 by { ApplyNone(s0); }
      assert incidents[0..] == incidents;
      for i := 0 to |incidents|
        invariant done + PersistAllOps(cfg, incidents[i..], now) == ops && Now() == Apply(s0, done)
        invariant Failures() == old(Failures())
      {
        ghost var one: seq<Op>;
        r, one := PersistIncident(incidents[i], now);
        ApplyConcat(s0, done, one);
        VerdictOpsOf(cfg, incidents, now, i);
        ghost var rest := PersistAllOps(cfg, incidents[i + 1..], now);
        if r.Failure? {
          DidStop(PersistIncidentOps(cfg, incidents[i], now), rest, one);
          DidConcat(done, PersistIncidentOps(cfg, incidents[i], now) + rest, one, false);
          done := done + one;
          return;
        }
        assert done + (one + rest) == (done + one) + rest;
        done := done + one;
      }
      assert incidents[|incidents|..] == [];
      r := Success(());
    }

    /** The part of finalize_window that depends on the verdict. */
    method ReportVerdict(w: Window, env: Env) returns (r: Result<()>, ghost done: seq<Op>)
      modifies redis, pg
      ensures Did(VerdictOps(cfg, w, env), done, r.Success?)
      ensures Now() == Apply(old(Now()), done)
      ensures Failures() == old(Failures()) + Failed(r)
    {
      hide Apply, CheckInvariants, PersistAllOps;
      ghost var s0 := Now();
      assert Apply(s0, []) == s0 by { ApplyNone(s0); }
      match CheckInvariants(w)
      case Matched =>
        var _ := redis.RecordMatchResult(true, env.matchUp);
        done := MatchMetric(true, env.matchUp);
        if env.matchUp { ApplyOne(s0, RecordMatch(true)); }
        r := redis.Publish();
        if r.Failure? {
          return;
        }
        ApplySnoc(s0, done, Publish);
        done := done + [Publish];
      case Mismatched(incidents) =>
        var _ := redis.RecordMatchResult(false, env.matchUp);
        done := MatchMetric(false, env.matchUp);
        if env.matchUp { ApplyOne(s0, RecordMatch(false)); }
        ghost var more: seq<Op>;
        r, more := PersistAll(incidents, env.now);
        ApplyConcat(s0, done, more);
        DidConcat(done, PersistAllOps(cfg, incidents, env.now), more, r.Success?);
        done := done + more;
    }

    method FinalizeWindow(w: Window, env: Env) returns (r: Result<()>, ghost done: seq<Op>)
      modifies this`windows, redis, pg
      ensures Did(FinalizeOps(cfg, w, env), done, r.Success?)
      ensures Now() == Apply(old(Now()), done)
      ensures Failures() == old(Failures()) + Failed(r)
    {
      hide Apply, CheckInvariants, BuildDetails, VerdictOps, DetailOps, CleanupOps;
      ghost var s0 := Now();
      assert Apply(s0, []) == s0 by { ApplyNone(s0); }
      ghost var upsert, details := [UpsertTransaction(w.tx, FinalRow(w, env))], DetailOps(w.tx, BuildDetails(w));
      ghost var verdict, cleanup := VerdictOps(cfg, w, env), CleanupOps(w.tx);
      ghost var one: seq<Op>;
      done := [];
      r := pg.UpsertTransaction(w.tx, FinalRow(w, env));
      if r.Failure? { return; }
      ApplyOne(s0, upsert[0]);
      done := upsert;
      r, one := UpsertReconciliationDetails(w.tx, BuildDetails(w));
      ApplyConcat(s0, done, one);
      DidConcat(upsert, details, one, r.Success?);
      done := done + one;
      if r.Failure? {
        DidStop(upsert + details, verdict, done);
        DidStop(upsert + details + verdict, cleanup, done);
        return;
      }
      r, one := ReportVerdict(w, env);
      ApplyConcat(s0, done, one);
      DidConcat(upsert + details, verdict, one, r.Success?);
      done := done + one;
      if r.Failure? {
        DidStop(upsert + details + verdict, cleanup, done);
        return;
      }
      r, one := CleanupWindow(w.tx);
      ApplyConcat(s0, done, one);
      DidConcat(upsert + details + verdict, cleanup, one, r.Success?);
      done := done + one;
    }

    /** The part of handle_timeout for a window that is not complete. */
    method DegradeWindow(tx: TxId, w: Window, env: Env) returns (r: Result<()>, ghost done: seq<Op>)
      modifies this`windows, redis, pg
      ensures Did(DegradeOps(cfg, tx, w, env), done, r.Success?)
      ensures Now() == Apply(old(Now()), done)
      ensures Failures() == old(Failures()) + Failed(r)
    {
      hide Apply, BuildDetails, DetailOps, CleanupOps, PersistIncidentOps, MissingIncident, DegradedRow;
      ghost var s0 := Now();
      assert Apply(s0, []) == s0 by { ApplyNone(s0); }
      ghost var upsert, details := [UpsertTransaction(tx, DegradedRow(w, env))], DetailOps(tx, BuildDetails(w));
      ghost var incident, cleanup := PersistIncidentOps(cfg, MissingIncident(tx, w), env.now), CleanupOps(tx);
      ghost var one: seq<Op>;
      done := [];
      r := pg.UpsertTransaction(tx, DegradedRow(w, env));
      if r.Failure? { return; }
      ApplyOne(s0, upsert[0]);
      done := upsert;
      r, one := UpsertReconciliationDetails(tx, BuildDetails(w));
      ApplyConcat(s0, done, one);
      DidConcat(upsert, details, one, r.Success?);
      done := done + one;
      if r.Failure? {
        DidStop(upsert + details, incident, done);
        DidStop(upsert + details + incident, cleanup, done);
        return;
      }
      r, one := PersistIncident(MissingIncident(tx, w), env.now);
      ApplyConcat(s0, done, one);
      DidConcat(upsert + details, incident, one, r.Success?);
      done := done + one;
      if r.Failure? {
        DidStop(upsert + details + incident, cleanup, done);
        return;
      }
      r, one := CleanupWindow(tx);
      ApplyConcat(s0, done, one);
      DidConcat(upsert + details + incident, cleanup, one, r.Success?);
      done := done + one;
    }

    /** Windows are keyed by their own transaction. */
    predicate Valid()
      reads this
    {
      forall tx <- windows :: windows[tx].tx == tx
    }

    /** handle_event up to the deadline: open a window if there is none. */
    method OpenWindow(d: Delivery) returns (r: Result<()>, ghost done: seq<Op>)
      requires Valid()
      modifies this`windows, redis
      ensures Did(OpenOps(cfg, Lookup(old(windows), d.event.tx), d), done, r.Success?)
      ensures Now() == Apply(old(Now()), done)
      ensures Failures() == old(Failures()) + Failed(r)
    {
      hide Apply;
      var tx := d.event.tx;
      ghost var s0, ops := Now(), OpenOps(cfg, Lookup(windows, tx), d);
      var w := if tx in windows then windows[tx] else NewWindow(tx, d.env.now, cfg.timeoutMs);
      assert w == Joined(cfg, Lookup(windows, tx), d);
      done := [];
      assert Apply(s0, []) == s0 by { ApplyNone(s0); }
      if tx !in windows {
        windows := windows[tx := w];
        done := [SetWindow(w)];
        assert Now() == Apply(s0, done) by { ApplyOne(s0, SetWindow(w)); }
      }
      if w.events == map[] {
        assert ops == done + [AddDeadline(tx, w.deadline), Publish];
        assert done == ops[..|done|];
        r := redis.AddDeadline(tx, w.deadline);
        if r.Failure? { return; }
        assert Now() == Apply(s0, done + [AddDeadline(tx, w.deadline)]) by {
          ApplySnoc(s0, done, AddDeadline(tx, w.deadline));
        }
        done := done + [AddDeadline(tx, w.deadline)];
        assert done == ops[..|done|];
        r := redis.Publish();
        if r.Failure? { return; }
        assert Now() == Apply(s0, done + [Publish]) by { ApplySnoc(s0, done, Publish); }
        done := done + [Publish];
      } else {
        assert ops == done;
      }
      r := Success(());
    }

    method HoldWindow(w: Window) returns (r: Result<()>, ghost done: seq<Op>)
      modifies this`windows, redis
      ensures Did([SetWindow(w), SaveWindow(w)], done, r.Success?)
      ensures Now() == Apply(old(Now()), done)
      ensures Failures() == old(Failures()) + Failed(r)
    {
      hide Apply;
      ghost var s0 := Now();
      windows := windows[w.tx := w];
      done := [SetWindow(w)];
      assert Now() == Apply(s0, done) by { ApplyOne(s0, SetWindow(w)); }
      r := redis.SaveWindow(w);
      if r.Failure? { return; }
      assert Now() == Apply(s0, done + [SaveWindow(w)]) by { ApplySnoc(s0, done, SaveWindow(w)); }
      done := done + [SaveWindow(w)];
    }

    /** The end of handle_event: finalise a complete window, or report progress. */
    method Conclude(w: Window, env: Env) returns (r: Result<()>, ghost done: seq<Op>)
      modifies this`windows, redis, pg
      ensures Did(ResultOps(cfg, w, env), done, r.Success?)
      ensures Now() == Apply(old(Now()), done)
      ensures Failures() == old(Failures()) + Failed(r)
    {
      hide Apply, FinalizeOps;
      var t := Timed(w, env.elapsed);
      if IsComplete(w) {
        r, done := FinalizeWindow(t, env);
      } else {
        ghost var s0 := Now();
        done := [];
        assert Apply(s0, []) == s0 by { ApplyNone(s0); }
        r := redis.Publish();
        if r.Failure? { return; }
        assert Now() == Apply(s0, [Publish]) by { ApplyOne(s0, Publish); }
        ghost var one: seq<Op>;
        r, one := HoldWindow(t);
        ApplyConcat(s0, [Publish], one);
        DidConcat([Publish], [SetWindow(t), SaveWindow(t)], one, r.Success?);
        assert [Publish] + [SetWindow(t), SaveWindow(t)] == ProgressOps(w, env);
        done := [Publish] + one;
      }
    }

    method CountProcessed(env: Env) returns (ghost done: seq<Op>)
      modifies redis
      ensures done == ProcessedMetric(env.processedUp) && Now() == Apply(old(Now()), done)
      ensures Failures() == old(Failures())
    {
      ghost var s0 := Now();
      var _ := redis.RecordEventProcessed(env.processedUp);
      done := ProcessedMetric(env.processedUp);
      ApplyNone(s0);
      ApplyOne(s0, RecordProcessed);
    }

    /** handle_event for the first event of its source. */
    method JoinWindow(d: Delivery) returns (r: Result<()>, ghost done: seq<Op>)
      requires Valid()
      modifies this`windows, redis, pg
      ensures Did(ArrivalOps(cfg, Lookup(old(windows), d.event.tx), d), done, r.Success?)
      ensures Now() == Apply(old(Now()), done)
      ensures Failures() == old(Failures()) + Failed(r)
    {
      hide Apply, OpenOps, ResultOps, ProcessedMetric, Joined;
      var tx := d.event.tx;
      ghost var s0, open := Now(), Lookup(windows, tx);
      var before := if tx in windows then windows[tx] else NewWindow(tx, d.env.now, cfg.timeoutMs);
      assert before == Joined(cfg, open, d) by { JoinedIs(cfg, open, d); }
      var w := before.(events := before.events[d.event.source := d.event]);
      ghost var first, second := OpenOps(cfg, open, d), [SetWindow(w), SaveWindow(w)];
      ghost var third, fourth := ResultOps(cfg, w, d.env), ProcessedMetric(d.env.processedUp);
      ghost var one: seq<Op>;
      r, done := OpenWindow(d);
      if r.Failure? {
        DidStop(first, second, done);
        DidStop(first + second, third, done);
        DidStop(first + second + third, fourth, done);
        return;
      }
      r, one := HoldWindow(w);
      ApplyConcat(s0, done, one);
      DidConcat(first, second, one, r.Success?);
      done := done + one;
      if r.Failure? {
        DidStop(first + second, third, done);
        DidStop(first + second + third, fourth, done);
        return;
      }
      r, one := Conclude(w, d.env);
      ApplyConcat(s0, done, one);
      DidConcat(first + second, third, one, r.Success?);
      done := done + one;
      if r.Failure? {
        DidStop(first + second + third, fourth, done);
        return;
      }
      one := CountProcessed(d.env);
      ApplyConcat(s0, done, one);
      done := done + one;
    }

    /** handle_event for a source that reported before. */
    method ReportDuplicate(d: Delivery) returns (r: Result<()>, ghost done: seq<Op>)
      modifies redis, pg
      ensures Did(DuplicateOps(cfg, d), done, r.Success?)
      ensures Now() == Apply(old(Now()), done)
      ensures Failures() == old(Failures()) + Failed(r)
    {
      hide Apply, PersistIncidentOps, ProcessedMetric, DuplicateIncident;
      var e := d.event;
      var row := TxRow(Pending, e.currency, e.txType, e.merchantId, 0);
      ghost var s0, first := Now(), [UpsertTransaction(e.tx, row)];
      ghost var second := PersistIncidentOps(cfg, DuplicateIncident(e), d.env.now);
      ghost var third := ProcessedMetric(d.env.processedUp);
      ghost var one: seq<Op>;
      done := [];
      assert Apply(s0, []) == s0 by { ApplyNone(s0); }
      r := pg.UpsertTransaction(e.tx, row);
      if r.Failure? { return; }
      ApplyOne(s0, first[0]);
      done := first;
      r, one := PersistIncident(DuplicateIncident(e), d.env.now);
      ApplyConcat(s0, done, one);
      DidConcat(first, second, one, r.Success?);
      done := done + one;
      if r.Failure? {
        DidStop(first + second, third, done);
        return;
      }
      one := CountProcessed(d.env);
      ApplyConcat(s0, done, one);
      done := done + one;
    }

    /** handle_event. */
    method HandleEvent(d: Delivery) returns (r: Result<()>, ghost stop: Option<nat>)
      requires Valid()
      modifies this`windows, redis, pg
      ensures Valid()
      ensures r.Success? <==> stop.None?
      ensures Failures() == old(Failures()) + Failed(r)
      ensures Now() == Step(cfg, old(Now()), Deliver(d, stop))
    {
      hide Apply, DuplicateOps, ArrivalOps, Performed;
      var e := d.event;
      ghost var s0 := Now();
      ghost var open := Lookup(windows, e.tx);
      ghost var known := Registered(s0, e);
      assert Keyed(s0);
      assert Apply(s0, []) == s0 by { ApplyNone(s0); }
      var isNew := redis.TryClaimEvent(e.eventId);
      if isNew.Failure? {
        assert Performed(DeliverOps(cfg, s0, d), Some(0)) == [] by { StopsAtClaim(cfg, s0, d); }
        return Failure, Some(0);
      }
      if !isNew.value {
        assert DeliverOps(cfg, s0, d) == [];
        assert Performed([], None) == [] by { PerformedAll([]); }
        assert redis.db.claims == s0.redis.claims;
        return Success(()), None;
      }
      ghost var claim, source := [ClaimEvent(e.eventId)], [RegisterSource(e.tx, e.source), TouchSources(e.tx)];
      ghost var rest := if known then DuplicateOps(cfg, d) else ArrivalOps(cfg, open, d);
      assert DeliverOps(cfg, s0, d) == claim + (source + rest);
      assert Now() == Apply(s0, claim) by { ApplyOne(s0, claim[0]); }
      ghost var s1 := Now();
      var first, one := redis.TryRegisterSource(e.tx, e.source);
      assert Now() == Apply(s1, one) by { RegisterApplies(s1, e.tx, e.source, one); }
      if first.Failure? {
        DidStop(source, rest, one);
      } else {
        ghost var s2, more := Now(), [];
        if !first.value {
          r, more := ReportDuplicate(d);
        } else {
          r, more := JoinWindow(d);
        }
        ApplyConcat(s1, one, more);
        DidConcat(source, rest, more, r.Success?);
        one := one + more;
      }
      var ok := first.Success? && r.Success?;
      DidConcat(claim, source + rest, one, ok);
      ApplyConcat(s0, claim, one);
      ghost var done := claim + one;
      DidIsPerformed(DeliverOps(cfg, s0, d), done, ok);
      stop := if ok then None else Some(|done|);
      r := if ok then Success(()) else Failure;
      assert Now() == Step(cfg, s0, Deliver(d, stop));
      StepKeepsKeyed(cfg, s0, Deliver(d, stop));
    }

    /** handle_timeout of an id that a timer pass popped. */
    method HandleTimeout(tx: TxId, env: Env) returns (r: Result<()>, ghost stop: Option<nat>)
      requires Valid() && tx in popped
      modifies this`windows, this`popped, redis, pg
      ensures Valid()
      ensures r.Success? <==> stop.None?
      ensures Failures() == old(Failures()) + Failed(r)
      ensures Now() == Step(cfg, old(Now()), Timeout(tx, env, stop))
      ensures popped == old(popped) - multiset{tx}
    {
      hide Apply, FinalizeOps, DegradeOps, Performed, IsComplete, Did;
      ghost var start := Now();
      assert Keyed(start);
      popped := popped - multiset{tx};
      ghost var s0 := Now();
      assert Apply(s0, []) == s0 by { ApplyNone(s0); }
      if tx !in windows {
        assert Performed([], None) == [] by { PerformedAll([]); }
        return Success(()), None;
      }
      var w := windows[tx];
      ghost var done: seq<Op>;
      windows := windows - {tx};
      ApplyOne(s0, RemoveWindow(tx));
      if IsComplete(w) {
        r, done := FinalizeWindow(w, env);
        DidConcat([RemoveWindow(tx)], FinalizeOps(cfg, w, env), done, r.Success?);
      } else {
        r, done := DegradeWindow(tx, w, env);
        DidConcat([RemoveWindow(tx)], DegradeOps(cfg, tx, w, env), done, r.Success?);
      }
      ApplyConcat(s0, [RemoveWindow(tx)], done);
      done := [RemoveWindow(tx)] + done;
      stop := if r.Success? then None else Some(|done|);
      DidIsPerformed(TimeoutOps(cfg, tx, Some(w), env), done, r.Success?);
      assert Now() == Step(cfg, start, Timeout(tx, env, stop));
      StepKeepsKeyed(cfg, start, Timeout(tx, env, stop));
    }

    /** A task of the pool ends: any of those in flight. Its error is logged and dropped. */
    method JoinNext(inFlight: seq<TxId>, envOf: TxId -> Env) returns (rest: seq<TxId>, ghost a: Action)
      requires Valid() && inFlight != [] && multiset(inFlight) <= popped
      modifies this`windows, this`popped, redis, pg
      ensures Valid() && a.Timeout? && multiset(inFlight) == multiset(rest) + multiset{a.tx}
      ensures a.env == envOf(a.tx) && Failures() == old(Failures()) + StopCount([a])
      ensures |rest| == |inFlight| - 1
      ensures Now() == Step(cfg, old(Now()), a) && popped == old(popped) - multiset{a.tx}
    {
      var j :| 0 <= j < |inFlight|;
      var tx := inFlight[j];
      rest := inFlight[..j] + inFlight[j + 1..];
      WithoutAt(inFlight, j);
      var _, stop := HandleTimeout(tx, envOf(tx));
      a := Timeout(tx, envOf(tx), stop);
    }

    /** One task of the pool ends, on top of those that already have. */
    method JoinOne(
        inFlight: seq<TxId>, envOf: TxId -> Env,
        ghost s: State, ghost handled: seq<Action>, ghost due: seq<TxId>, ghost i: nat)
      returns (rest: seq<TxId>, ghost more: seq<Action>)
      requires Valid() && inFlight != [] && i <= |due|
      requires Now() == Run(cfg, s, handled) && Timeouts(handled, envOf)
      requires PoolHolds(TxsOf(handled), inFlight, due, i, s.popped, popped)
      modifies this`windows, this`popped, redis, pg
      ensures Valid() && |rest| == |inFlight| - 1
      ensures Now() == Run(cfg, s, more) && Timeouts(more, envOf)
      ensures PoolHolds(TxsOf(more), rest, due, i, s.popped, popped)
      ensures Failures() - StopCount(more) == old(Failures()) - StopCount(handled)
    {
      hide Step, Run, TxsOf, StopCount;
      ghost var a: Action;
      rest, a := JoinNext(inFlight, envOf);
      more := handled + [a];
      RunSnoc(cfg, s, handled, a);
      TxsOfSnoc(handled, a);
      StopCountSnoc(handled, a);
    }

    /** The pool of process_expired_windows: at most 50 tasks, each popped id handled once. */
    method RunPool(due: seq<TxId>, envOf: TxId -> Env) returns (peak: nat, ghost handled: seq<Action>)
      requires Valid() && multiset(due) <= popped
      modifies this`windows, this`popped, redis, pg
      ensures Valid() && peak <= MAX_TASKS && popped == old(popped) - multiset(due)
      ensures Now() == Run(cfg, old(Now()), handled)
      ensures Timeouts(handled, envOf) && multiset(TxsOf(handled)) == multiset(due)
      ensures Failures() == old(Failures()) + StopCount(handled)
    {
      hide Step, Run, TxsOf, PoolHolds, StopCount;
      NoStops();
      ghost var s := Now();
      peak, handled := 0, [];
      assert Now() == Run(cfg, s, handled) by { RunNone(cfg, s); }
      var inFlight: seq<TxId> := [];
      assert TxsOf([]) == [] by { TxsOfNone(); }
      PoolStarts(due, popped);
      for i := 0 to |due|
        invariant Valid() && |inFlight| < MAX_TASKS && peak <= MAX_TASKS
        invariant PoolHolds(TxsOf(handled), inFlight, due, i, s.popped, popped)
        invariant Timeouts(handled, envOf) && Now() == Run(cfg, s, handled)
        invariant Failures() == old(Failures()) + StopCount(handled)
      {
        PoolSpawns(TxsOf(handled), inFlight, due, i, s.popped, popped);
        inFlight := inFlight + [due[i]];
        peak := if peak < |inFlight| then |inFlight| else peak;
        if |inFlight| >= MAX_TASKS {
          inFlight, handled := JoinOne(inFlight, envOf, s, handled, due, i + 1);
        }
      }
      while inFlight != []
        invariant Valid()
        invariant PoolHolds(TxsOf(handled), inFlight, due, |due|, s.popped, popped)
        invariant Timeouts(handled, envOf) && Now() == Run(cfg, s, handled)
        invariant Failures() == old(Failures()) + StopCount(handled)
        decreases |inFlight|
      {
        inFlight, handled := JoinOne(inFlight, envOf, s, handled, due, |due|);
      }
      PoolEnds(TxsOf(handled), due, s.popped, popped);
    }

    /** process_expired_windows: every id of the snapshot is popped and handled exactly once, by
        at most 50 tasks at a time. */
    method ProcessExpiredWindows(now: int, envOf: TxId -> Env)
      returns (r: Result<()>, peak: nat, ghost ids: seq<TxId>, ghost handled: seq<Action>)
      requires Valid()
      modifies this`windows, this`popped, redis, pg
      ensures Valid() && peak <= MAX_TASKS && popped == old(popped)
      ensures r.Success? ==>
                && Claiming.IsSnapshot(old(redis.db.deadlines), now, ids)
                && Now() == Run(cfg, old(Now()), Pops(ids) + handled)
                && Timeouts(handled, envOf) && multiset(TxsOf(handled)) == multiset(ids)
                && Failures() == old(Failures()) + StopCount(handled)
      ensures r.Failure? ==>
                && handled == [] && Failures() == old(Failures()) + 1
                && windows == old(windows) && pg.db == old(pg.db)
                && exists lost: set<TxId> ::
                     && (forall id <- lost :: id in old(redis.db.deadlines) && old(redis.db.deadlines)[id] <= now)
                     && redis.db == old(redis.db).(deadlines := old(redis.db.deadlines) - lost)
    {
      hide Step, Run, TxsOf, StopCount;
      ghost var s := Now();
      peak, ids, handled := 0, [], [];
      var due := redis.PopExpiredDeadlines(now);
      if due.Failure? { return Failure, peak, ids, handled; }
      ids := due.value;
      popped := popped + multiset(ids);
      assert Now() == Run(cfg, s, Pops(ids)) by { PopsRun(cfg, s, ids); }
      peak, handled := RunPool(due.value, envOf);
      RunConcat(cfg, s, Pops(ids), handled);
      r := Success(());
    }

    method JoinNextEscalation(inFlight: seq<IncidentId>, clock: IncidentId -> int)
      returns (rest: seq<IncidentId>, ghost a: Action)
      requires inFlight != [] && multiset(inFlight) <= poppedEscalations
      modifies this`poppedEscalations, redis`failures, pg
      ensures a.Escalate? && multiset(inFlight) == multiset(rest) + multiset{a.id} && |rest| == |inFlight| - 1
      ensures Now() == Step(cfg, old(Now()), a) && poppedEscalations == old(poppedEscalations) - multiset{a.id}
      ensures a.now == clock(a.id) && pg.failures == old(pg.failures) + StopCount([a])
      ensures redis.failures >= old(redis.failures)
    {
      var j :| 0 <= j < |inFlight|;
      var id := inFlight[j];
      rest := inFlight[..j] + inFlight[j + 1..];
      WithoutAt(inFlight, j);
      hide Step;
      ghost var s := Now();
      var escalated := pg.EscalateIncident(id, 2, clock(id));
      poppedEscalations := poppedEscalations - multiset{id};
      if escalated.Success? && escalated.value {
        var _ := redis.Publish();
      }
      a := Escalate(id, clock(id), escalated.Success?);
      EscalateStepIs(cfg, s, a, pg.db);
    }

    /** One task of the pool ends, on top of those that already have. */
    method JoinOneEscalation(
        inFlight: seq<IncidentId>, clock: IncidentId -> int,
        ghost s: State, ghost handled: seq<Action>, ghost due: seq<IncidentId>, ghost i: nat)
      returns (rest: seq<IncidentId>, ghost more: seq<Action>)
      requires inFlight != [] && i <= |due|
      requires Now() == Run(cfg, s, handled) && Escalations(handled, clock)
      requires PoolHolds(IdsOf(handled), inFlight, due, i, s.poppedEscalations, poppedEscalations)
      modifies this`poppedEscalations, redis`failures, pg
      ensures |rest| == |inFlight| - 1
      ensures Now() == Run(cfg, s, more) && Escalations(more, clock)
      ensures PoolHolds(IdsOf(more), rest, due, i, s.poppedEscalations, poppedEscalations)
      ensures pg.failures - StopCount(more) == old(pg.failures) - StopCount(handled)
      ensures redis.failures >= old(redis.failures)
    {
      hide Step, Run, IdsOf, StopCount;
      ghost var a: Action;
      rest, a := JoinNextEscalation(inFlight, clock);
      more := handled + [a];
      RunSnoc(cfg, s, handled, a);
      IdsOfSnoc(handled, a);
      StopCountSnoc(handled, a);
    }

    /** The pool of process_expired_escalations: at most 50 tasks, each popped id handled once. */
    method RunEscalationPool(due: seq<IncidentId>, clock: IncidentId -> int)
      returns (peak: nat, ghost handled: seq<Action>)
      requires multiset(due) <= poppedEscalations
      modifies this`poppedEscalations, redis`failures, pg
      ensures peak <= MAX_TASKS && poppedEscalations == old(poppedEscalations) - multiset(due)
      ensures Now() == Run(cfg, old(Now()), handled)
      ensures Escalations(handled, clock) && multiset(IdsOf(handled)) == multiset(due)
      ensures pg.failures == old(pg.failures) + StopCount(handled) && redis.failures >= old(redis.failures)
    {
      hide Step, Run, IdsOf, PoolHolds, StopCount;
      NoStops();
      ghost var s := Now();
      peak, handled := 0, [];
      assert Now() == Run(cfg, s, handled) by { RunNone(cfg, s); }
      var inFlight: seq<IncidentId> := [];
      assert IdsOf([]) == [] by { IdsOfNone(); }
      PoolStarts(due, poppedEscalations);
      for i := 0 to |due|
        invariant |inFlight| < MAX_TASKS && peak <= MAX_TASKS
        invariant PoolHolds(IdsOf(handled), inFlight, due, i, s.poppedEscalations, poppedEscalations)
        invariant Escalations(handled, clock) && Now() == Run(cfg, s, handled)
        invariant pg.failures == old(pg.failures) + StopCount(handled) && redis.failures >= old(redis.failures)
      {
        PoolSpawns(IdsOf(handled), inFlight, due, i, s.poppedEscalations, poppedEscalations);
        inFlight := inFlight + [due[i]];
        peak := if peak < |inFlight| then |inFlight| else peak;
        if |inFlight| >= MAX_TASKS {
          inFlight, handled := JoinOneEscalation(inFlight, clock, s, handled, due, i + 1);
        }
      }
      while inFlight != []
        invariant PoolHolds(IdsOf(handled), inFlight, due, |due|, s.poppedEscalations, poppedEscalations)
        invariant Escalations(handled, clock) && Now() == Run(cfg, s, handled)
        invariant pg.failures == old(pg.failures) + StopCount(handled) && redis.failures >= old(redis.failures)
        decreases |inFlight|
      {
        inFlight, handled := JoinOneEscalation(inFlight, clock, s, handled, due, |due|);
      }
      PoolEnds(IdsOf(handled), due, s.poppedEscalations, poppedEscalations);
    }

    /** process_expired_escalations: every id of the snapshot is popped and handled exactly once, by
        at most 50 tasks at a time. */
    method ProcessExpiredEscalations(now: int, clock: IncidentId -> int)
      returns (r: Result<()>, peak: nat, ghost ids: seq<IncidentId>, ghost handled: seq<Action>)
      modifies this`poppedEscalations, redis, pg
      ensures peak <= MAX_TASKS && poppedEscalations == old(poppedEscalations)
      ensures r.Success? ==>
                && Claiming.IsSnapshot(old(redis.db.escalations), now, ids)
                && Now() == Run(cfg, old(Now()), EscalationPops(ids) + handled)
                && Escalations(handled, clock) && multiset(IdsOf(handled)) == multiset(ids)
                && pg.failures == old(pg.failures) + StopCount(handled) && redis.failures >= old(redis.failures)
      ensures r.Failure? ==>
                && handled == [] && pg.failures == old(pg.failures) && redis.failures == old(redis.failures) + 1
                && pg.db == old(pg.db)
                && exists lost: set<IncidentId> ::
                     && (forall id <- lost :: id in old(redis.db.escalations) && old(redis.db.escalations)[id] <= now)
                     && redis.db == old(redis.db).(escalations := old(redis.db.escalations) - lost)
    {
      hide Step, Run, IdsOf, StopCount;
      ghost var s := Now();
      peak, ids, handled := 0, [], [];
      var due := redis.PopExpiredEscalations(now);
      if due.Failure? { return Failure, peak, ids, handled; }
      ids := due.value;
      poppedEscalations := poppedEscalations + multiset(ids);
      assert Now() == Run(cfg, s, EscalationPops(ids)) by { EscalationPopsRun(cfg, s, ids); }
      peak, handled := RunEscalationPool(due.value, clock);
      RunConcat(cfg, s, EscalationPops(ids), handled);
      r := Success(());
    }
  }

  function Pops(ids: seq<TxId>): seq<Action> {
    if ids == [] then [] else [PopDeadline(ids[0])] + Pops(ids[1..])
  }

  function EscalationPops(ids: seq<IncidentId>): seq<Action> {
    if ids == [] then [] else [PopEscalation(ids[0])] + EscalationPops(ids[1..])
  }

  /** The call did not complete. */
  predicate Stopped(a: Action) {
    match a
    case Deliver(_, stop) => stop.Some?
    case Timeout(_, _, stop) => stop.Some?
    case Escalate(_, _, up) => !up
    case _ => false
  }

  function StopCount(handled: seq<Action>): nat {
    if handled == [] then 0
    else
      var last := |handled| - 1;
      StopCount(handled[..last]) + if Stopped(handled[last]) then 1 else 0
  }

  lemma NoStops()
    ensures StopCount([]) == 0
  {}

  lemma StopCountSnoc(handled: seq<Action>, a: Action)
    ensures StopCount(handled + [a]) == StopCount(handled) + StopCount([a])
  {
    assert (handled + [a])[..|handled|] == handled;
    assert [a][..0] == [];
  }

  lemma {:induction false} NoneStopped(handled: seq<Action>)
    ensures StopCount(handled) == 0 <==> forall a <- handled :: !Stopped(a)
    decreases |handled|
  {
    if handled == [] {
    } else {
      var last := |handled| - 1;
      assert handled == handled[..last] + [handled[last]];
      NoneStopped(handled[..last]);
    }
  }

  /** Timeouts that read what the environment holds for them. */
  predicate Timeouts(handled: seq<Action>, envOf: TxId -> Env) {
    forall a <- handled :: a.Timeout? && a.env == envOf(a.tx)
  }

  predicate Escalations(handled: seq<Action>, clock: IncidentId -> int) {
    forall a <- handled :: a.Escalate? && a.now == clock(a.id)
  }

  function TxsOf(handled: seq<Action>): seq<TxId> {
    if handled == [] then []
    else
      var last := handled[|handled| - 1];
      TxsOf(handled[..|handled| - 1]) + (if last.Timeout? then [last.tx] else [])
  }

  function IdsOf(handled: seq<Action>): seq<IncidentId> {
    if handled == [] then []
    else
      var last := handled[|handled| - 1];
      IdsOf(handled[..|handled| - 1]) + (if last.Escalate? then [last.id] else [])
  }

  lemma TxsOfSnoc(handled: seq<Action>, a: Action)
    requires a.Timeout?
    ensures TxsOf(handled + [a]) == TxsOf(handled) + [a.tx]
  {
    assert (handled + [a])[..|handled|] == handled;
  }

  lemma IdsOfSnoc(handled: seq<Action>, a: Action)
    requires a.Escalate?
    ensures IdsOf(handled + [a]) == IdsOf(handled) + [a.id]
  {
    assert (handled + [a])[..|handled|] == handled;
  }

  lemma WithoutAt(ids: seq<nat>, j: nat)
    requires j < |ids|
    ensures var rest := ids[..j] + ids[j + 1..];
            multiset(ids) == multiset(rest) + multiset{ids[j]} && |rest| == |ids| - 1 && ids[j] in multiset(ids)
  {
    assert ids == ids[..j] + [ids[j]] + ids[j + 1..];
  }

  /** A pool that has spawned the first `i` of the `due` tasks: those that ended and those in
      flight make up the spawned ones, and what is still popped is what has not ended. */
  predicate PoolHolds(
      ended: seq<nat>, inFlight: seq<nat>, due: seq<nat>, i: nat, before: multiset<nat>, popped: multiset<nat>)
    requires i <= |due|
  {
    && multiset(ended) + multiset(inFlight) == multiset(due[..i])
    && popped == before - multiset(due) + multiset(inFlight) + multiset(due[i..])
  }

  lemma PoolStarts(due: seq<nat>, popped: multiset<nat>)
    requires multiset(due) <= popped
    ensures PoolHolds([], [], due, 0, popped, popped)
  {
    assert due[0..] == due;
  }

  lemma PoolSpawns(
      ended: seq<nat>, inFlight: seq<nat>, due: seq<nat>, i: nat, before: multiset<nat>, popped: multiset<nat>)
    requires i < |due| && PoolHolds(ended, inFlight, due, i, before, popped)
    ensures PoolHolds(ended, inFlight + [due[i]], due, i + 1, before, popped)
  {
    assert due[..i + 1] == due[..i] + [due[i]] && due[i..] == [due[i]] + due[i + 1..];
  }

  lemma PoolEnds(ended: seq<nat>, due: seq<nat>, before: multiset<nat>, popped: multiset<nat>)
    requires PoolHolds(ended, [], due, |due|, before, popped)
    ensures multiset(ended) == multiset(due) && popped == before - multiset(due)
  {
    assert due[..|due|] == due && due[|due|..] == [];
  }

  lemma TxsOfNone()
    ensures TxsOf([]) == []
  {}

  lemma IdsOfNone()
    ensures IdsOf([]) == []
  {}

  lemma RunNone(cfg: Config, s: State)
    ensures Run(cfg, s, []) == s
  {}

  lemma RemovedFirst(zset: map<nat, int>, popped: multiset<nat>, ids: seq<nat>)
    requires ids != []
    ensures zset - {ids[0]} - Members(ids[1..]) == zset - Members(ids)
    ensures popped + multiset{ids[0]} + multiset(ids[1..]) == popped + multiset(ids)
  {
    assert ids == [ids[0]] + ids[1..];
    assert Members(ids) == {ids[0]} + Members(ids[1..]);
  }

  lemma {:induction false} PopsRun(cfg: Config, s: State, ids: seq<TxId>)
    requires Claiming.NoRepeats(ids) && forall id <- ids :: id in s.redis.deadlines
    ensures Run(cfg, s, Pops(ids)) ==
            s.(redis := s.redis.(deadlines := s.redis.deadlines - Members(ids)), popped := s.popped + multiset(ids))
    decreases |ids|
  {
    if ids == [] {
      assert s.redis.deadlines - Members(ids) == s.redis.deadlines;
    } else {
      var id, rest := ids[0], ids[1..];
      assert ids == [id] + rest && id in ids;
      var t := Step(cfg, s, PopDeadline(id));
      forall k | k in rest ensures k in t.redis.deadlines { assert k in ids; }
      PopsRun(cfg, t, rest);
      assert Pops(ids)[1..] == Pops(rest);
      RemovedFirst(s.redis.deadlines, s.popped, ids);
    }
  }

  lemma {:induction false} EscalationPopsRun(cfg: Config, s: State, ids: seq<IncidentId>)
    requires Claiming.NoRepeats(ids) && forall id <- ids :: id in s.redis.escalations
    ensures Run(cfg, s, EscalationPops(ids)) ==
            s.(redis := s.redis.(escalations := s.redis.escalations - Members(ids)),
               poppedEscalations := s.poppedEscalations + multiset(ids))
    decreases |ids|
  {
    if ids == [] {
      assert s.redis.escalations - Members(ids) == s.redis.escalations;
    } else {
      var id, rest := ids[0], ids[1..];
      assert ids == [id] + rest && id in ids;
      var t := Step(cfg, s, PopEscalation(id));
      forall k | k in rest ensures k in t.redis.escalations { assert k in ids; }
      EscalationPopsRun(cfg, t, rest);
      assert EscalationPops(ids)[1..] == EscalationPops(rest);
      RemovedFirst(s.redis.escalations, s.poppedEscalations, ids);
    }
  }

  lemma JoinedIs(cfg: Config, open: Option<Window>, d: Delivery)
    ensures Joined(cfg, open, d) ==
            if open.Some? then open.value else NewWindow(d.event.tx, d.env.now, cfg.timeoutMs)
  {}

  lemma StopsAtClaim(cfg: Config, s: State, d: Delivery)
    ensures Performed(DeliverOps(cfg, s, d), Some(0)) == []
  {
    hide NewEventOps;
  }

  lemma RegisterApplies(s: State, tx: TxId, source: Source, done: seq<Op>)
    requires done <= [RegisterSource(tx, source), TouchSources(tx)]
    ensures Apply(s, done) ==
            if done == [] then s else s.(redis := RedisOp(s.redis, RegisterSource(tx, source), -1))
  {
    if |done| == 1 {
      assert done == [RegisterSource(tx, source)];
      ApplyOne(s, done[0]);
    } else if |done| == 2 {
      assert done == [RegisterSource(tx, source)] + [TouchSources(tx)];
      ApplyOne(s, done[0]);
      ApplySnoc(s, [RegisterSource(tx, source)], TouchSources(tx));
    }
  }

  lemma EscalateStepIs(cfg: Config, s: State, a: Action, pg: Postgres)
    requires a.Escalate? && a.id in s.poppedEscalations
    requires pg ==
             if a.up && a.id < |s.pg.incidents|
             then s.pg.(incidents := s.pg.incidents[a.id := EscalatedRow(s.pg.incidents[a.id], a.now)]) else s.pg
    ensures Step(cfg, s, a) == s.(pg := pg, poppedEscalations := s.poppedEscalations - multiset{a.id})
  {}

  lemma IncidentEffects(s: State, incident: Incident, at: int)
    ensures ApplyOp(s, CreateIncident(incident)) == s.(pg := PostgresOp(s.pg, CreateIncident(incident)))
    ensures ApplyOp(s, AddEscalation(at)) ==
            s.(redis := RedisOp(s.redis, AddEscalation(at), |s.pg.incidents| - 1))
    ensures ApplyOp(s, Publish) == s
  {}

  lemma OneMoreIncident(p: Postgres, incident: Incident)
    ensures |PostgresOp(p, CreateIncident(incident)).incidents| == |p.incidents| + 1
  {}

  lemma RedisEffect(s: State, op: Op)
    requires op.DeleteWindow? || op.RemoveDeadline? || op.CleanupSources?
    ensures ApplyOp(s, op) == s.(redis := RedisOp(s.redis, op, -1))
  {}

  lemma MemoryEffect(s: State, op: Op)
    requires op.SetWindow? || op.RemoveWindow?
    ensures ApplyOp(s, op) == s.(windows := MemoryOp(s.windows, op))
  {}

  lemma ApplyNone(s: State)
    ensures Apply(s, []) == s
  {}

  lemma ApplyOne(s: State, op: Op)
    ensures Apply(s, [op]) == ApplyOp(s, op)
  {
    ApplySnoc(s, [], op);
    assert [] + [op] == [op];
  }

  lemma PerformedAll(ops: seq<Op>)
    ensures Performed(ops, None) == ops
  {}
}
