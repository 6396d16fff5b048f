/** matcher/src/store.rs as objects. A command either fails, having done nothing, or has the
    effect that module Store gives it. */
module StoreClients {
  import opened Wrappers
  import opened Model
  import opened Store
  import opened Matcher
  import Claiming

  /** `done` is what a sequence of effects `ops` got to: all of it, or everything before a
      fallible effect that failed. */
  predicate Did(ops: seq<Op>, done: seq<Op>, ok: bool) {
    if ok then done == ops
    else |done| < |ops| && done == ops[..|done|] && Fallible(ops[|done|])
  }

  lemma DidConcat(a: seq<Op>, b: seq<Op>, done: seq<Op>, ok: bool)
    requires Did(b, done, ok)
    ensures Did(a + b, a + done, ok)
  {
    if !ok {
      assert (a + b)[..|a + done|] == a + b[..|done|];
    }
  }

  lemma DidStop(a: seq<Op>, b: seq<Op>, done: seq<Op>)
    requires Did(a, done, false)
    ensures Did(a + b, done, false)
  {
    assert (a + b)[..|done|] == a[..|done|];
  }

  function Members(ids: seq<nat>): set<nat> {
    set id | id in ids
  }

  /** What a call adds to the count of failed commands. */
  function Failed<T>(r: Result<T>): nat {
    if r.Failure? then 1 else 0
  }

  class RedisStore {
    var db: Redis
    ghost var failures: nat // commands that failed, save for the metrics

    constructor ()
      ensures db == EMPTY_REDIS && failures == 0
    {
      db, failures := EMPTY_REDIS, 0;
    }

    method TryClaimEvent(id: EventId) returns (r: Result<bool>)
      modifies this
      ensures failures == old(failures) + Failed(r)
      ensures r.Failure? ==> db == old(db)
      ensures r.Success? ==> r.value == (id !in old(db.claims)) && db == RedisOp(old(db), ClaimEvent(id), -1)
    {
      if * { failures := failures + 1; return Failure; }
      r := Success(id !in db.claims);
      db := db.(claims := db.claims + {id});
    }

    /** SADD, then EXPIRE. */
    method TryRegisterSource(tx: TxId, source: Source) returns (r: Result<bool>, ghost done: seq<Op>)
      modifies this
      ensures failures == old(failures) + Failed(r)
      ensures Did([RegisterSource(tx, source), TouchSources(tx)], done, r.Success?)
      ensures r.Success? ==> r.value == (source !in OrEmpty(Lookup(old(db.sources), tx)))
      ensures db == if done == [] then old(db) else RedisOp(old(db), RegisterSource(tx, source), -1)
    {
      done := [];
      if * { failures := failures + 1; return Failure, done; }
      var members := OrEmpty(Lookup(db.sources, tx));
      db := db.(sources := db.sources[tx := members + {source}]);
      done := [RegisterSource(tx, source)];
      if * { failures := failures + 1; return Failure, done; }
      return Success(source !in members), [RegisterSource(tx, source), TouchSources(tx)];
    }

    method SaveWindow(w: Window) returns (r: Result<()>)
      modifies this
      ensures failures == old(failures) + Failed(r)
      ensures db == if r.Success? then RedisOp(old(db), Op.SaveWindow(w), -1) else old(db)
    {
      if * { failures := failures + 1; return Failure; }
      db := db.(checkpoints := db.checkpoints[w.tx := w]);
      r := Success(());
    }

    method DeleteWindow(tx: TxId) returns (r: Result<()>)
      modifies this
      ensures failures == old(failures) + Failed(r)
      ensures db == if r.Success? then RedisOp(old(db), Op.DeleteWindow(tx), -1) else old(db)
    {
      if * { failures := failures + 1; return Failure; }
      db := db.(checkpoints := db.checkpoints - {tx});
      r := Success(());
    }

    method AddDeadline(tx: TxId, at: int) returns (r: Result<()>)
      modifies this
      ensures failures == old(failures) + Failed(r)
      ensures db == if r.Success? then RedisOp(old(db), Op.AddDeadline(tx, at), -1) else old(db)
    {
      if * { failures := failures + 1; return Failure; }
      db := db.(deadlines := db.deadlines[tx := at]);
      r := Success(());
    }

    method RemoveDeadline(tx: TxId) returns (r: Result<()>)
      modifies this
      ensures failures == old(failures) + Failed(r)
      ensures db == if r.Success? then RedisOp(old(db), Op.RemoveDeadline(tx), -1) else old(db)
    {
      if * { failures := failures + 1; return Failure; }
      db := db.(deadlines := db.deadlines - {tx});
      r := Success(());
    }

    method AddEscalation(id: IncidentId, at: int) returns (r: Result<()>)
      modifies this
      ensures failures == old(failures) + Failed(r)
      ensures db == if r.Success? then RedisOp(old(db), Op.AddEscalation(at), id) else old(db)
    {
      if * { failures := failures + 1; return Failure; }
      db := db.(escalations := db.escalations[id := at]);
      r := Success(());
    }

    method CleanupSources(tx: TxId) returns (r: Result<()>)
      modifies this
      ensures failures == old(failures) + Failed(r)
      ensures db == if r.Success? then RedisOp(old(db), Op.CleanupSources(tx), -1) else old(db)
    {
      if * { failures := failures + 1; return Failure; }
      db := db.(sources := db.sources - {tx});
      r := Success(());
    }

    /** The counters; callers ignore the outcome. `up` says whether the counter's own command got
        through; the commands that follow it can still fail. */
    method RecordEventProcessed(up: bool) returns (r: Result<()>)
      modifies this
      ensures failures == old(failures)
      ensures db == if up then RedisOp(old(db), RecordProcessed, -1) else old(db)
      ensures r.Success? ==> up
    {
      if !up { return Failure; }
      db := db.(processed := db.processed + 1);
      if * { return Failure; }
      r := Success(());
    }

    method RecordMatchResult(success: bool, up: bool) returns (r: Result<()>)
      modifies this
      ensures failures == old(failures)
      ensures db == if up then RedisOp(old(db), RecordMatch(success), -1) else old(db)
    {
      if !up { return Failure; }
      if success { db := db.(matched := db.matched + 1); } else { db := db.(mismatched := db.mismatched + 1); }
      r := Success(());
    }

    method Publish() returns (r: Result<()>)
      modifies this`failures
      ensures failures == old(failures) + Failed(r)
    {
      if * { failures := failures + 1; return Failure; }
      r := Success(());
    }

    /** ZRANGEBYSCORE -inf now: the due members, each once, in some order. */
    method Expired(zset: map<nat, int>, now: int) returns (members: seq<nat>)
      ensures Claiming.IsSnapshot(zset, now, members)
    {
      members := [];
      var rest := set id | id in zset && zset[id] <= now;
      while rest != {}
        invariant Claiming.NoRepeats(members)
        invariant forall id <- members :: id !in rest && id in zset && zset[id] <= now
        invariant forall id <- zset :: zset[id] <= now ==> id in members || id in rest
        invariant forall id <- rest :: id in zset && zset[id] <= now
        decreases rest
      {
        var id :| id in rest;
        members := members + [id];
        rest := rest - {id};
      }
    }

    /** A failure half-way loses the ids that were already removed. */
    method PopExpiredDeadlines(now: int) returns (r: Result<seq<TxId>>)
      modifies this
      ensures failures == old(failures) + Failed(r)
      ensures r.Success? ==>
                && Claiming.IsSnapshot(old(db.deadlines), now, r.value)
                && db == old(db).(deadlines := old(db.deadlines) - Members(r.value))
      ensures r.Failure? ==>
                exists lost: set<TxId> ::
                  && (forall id <- lost :: id in old(db.deadlines) && old(db.deadlines)[id] <= now)
                  && db == old(db).(deadlines := old(db.deadlines) - lost)
    {
      if * {
        assert old(db.deadlines) - {} == db.deadlines;
        failures := failures + 1;
        return Failure;
      }
      var members := Expired(db.deadlines, now);
      var result := [];
      for i := 0 to |members|
        invariant result == members[..i] && failures == old(failures)
        invariant db == old(db).(deadlines := old(db.deadlines) - Members(members[..i]))
      {
        ghost var before := Members(members[..i]);
        if * {
          failures := failures + 1;
          return Failure;
        }
        assert members[i] !in members[..i];
        assert members[..i + 1] == members[..i] + [members[i]];
        assert Members(members[..i + 1]) == before + {members[i]};
        var removed := members[i] in db.deadlines;
        db := db.(deadlines := db.deadlines - {members[i]});
        if removed {
          result := result + [members[i]];
        }
      }
      assert members[..|members|] == members;
      r := Success(result);
    }

    method PopExpiredEscalations(now: int) returns (r: Result<seq<IncidentId>>)
      modifies this
      ensures failures == old(failures) + Failed(r)
      ensures r.Success? ==>
                && Claiming.IsSnapshot(old(db.escalations), now, r.value)
                && db == old(db).(escalations := old(db.escalations) - Members(r.value))
      ensures r.Failure? ==>
                exists lost: set<IncidentId> ::
                  && (forall id <- lost :: id in old(db.escalations) && old(db.escalations)[id] <= now)
                  && db == old(db).(escalations := old(db.escalations) - lost)
    {
      if * {
        assert old(db.escalations) - {} == db.escalations;
        failures := failures + 1;
        return Failure;
      }
      var members := Expired(db.escalations, now);
      var result := [];
      for i := 0 to |members|
        invariant result == members[..i] && failures == old(failures)
        invariant db == old(db).(escalations := old(db.escalations) - Members(members[..i]))
      {
        ghost var before := Members(members[..i]);
        if * {
          failures := failures + 1;
          return Failure;
        }
        assert members[i] !in members[..i];
        assert members[..i + 1] == members[..i] + [members[i]];
        assert Members(members[..i + 1]) == before + {members[i]};
        var removed := members[i] in db.escalations;
        db := db.(escalations := db.escalations - {members[i]});
        if removed {
          result := result + [members[i]];
        }
      }
      assert members[..|members|] == members;
      r := Success(result);
    }

    /** SCAN delivers the keys in batches, in any order and possibly more than once. `scans` says
        which batches arrive and `gets` which GETs go through; a key whose GET fails is skipped
        without an error. */
    method LoadAllWindows(batches: seq<seq<TxId>>, scans: nat -> bool, gets: (nat, nat) -> bool)
      returns (r: Result<seq<Window>>)
      ensures r.Success? <==> forall i | 0 <= i < |batches| :: scans(i)
      ensures r.Success? ==>
                forall w :: w in r.value <==>
                  exists tx <- db.checkpoints :: Fetched(batches, gets, tx, |batches|) && db.checkpoints[tx] == w
    {
      var windows := [];
      for i := 0 to |batches|
        invariant forall k | 0 <= k < i :: scans(k)
        invariant forall w :: w in windows <==>
                    exists tx <- db.checkpoints :: Fetched(batches, gets, tx, i) && db.checkpoints[tx] == w
      {
        if !scans(i) { return Failure; }
        ghost var before := windows;
        for j := 0 to |batches[i]|
          invariant forall w :: w in windows <==>
                      w in before ||
                      exists k | 0 <= k < j ::
                        gets(i, k) && batches[i][k] in db.checkpoints && db.checkpoints[batches[i][k]] == w
        {
          var tx := batches[i][j];
          if gets(i, j) && tx in db.checkpoints {
            windows := windows + [db.checkpoints[tx]];
          }
        }
      }
      r := Success(windows);
    }
  }

  /** SCAN returned the key in one of the first `n` batches, and a GET of it went through. */
  ghost predicate Fetched(batches: seq<seq<TxId>>, gets: (nat, nat) -> bool, tx: TxId, n: nat)
    requires n <= |batches|
  {
    exists i, k | 0 <= i < n && 0 <= k < |batches[i]| :: batches[i][k] == tx && gets(i, k)
  }

  class PostgresStore {
    var db: Postgres
    ghost var failures: nat // commands that failed, save for the metrics

    constructor ()
      ensures db == INIT.pg && failures == 0
    {
      db, failures := Postgres(map[], map[], []), 0;
    }

    method UpsertTransaction(tx: TxId, row: TxRow) returns (r: Result<()>)
      modifies this
      ensures failures == old(failures) + Failed(r)
      ensures db == if r.Success? then PostgresOp(old(db), Op.UpsertTransaction(tx, row)) else old(db)
      ensures r.Success? ==> tx in db.transactions && db.transactions - {tx} == old(db.transactions) - {tx}
      ensures r.Success? && tx !in old(db.transactions) ==> db.transactions[tx] == row
      ensures r.Success? && tx in old(db.transactions) ==>
                var was, now := old(db.transactions)[tx], db.transactions[tx];
                && now.currency == was.currency && now.txType == was.txType && now.merchantId == was.merchantId
                && now.status == row.status && now.micros == row.micros
    {
      if * { failures := failures + 1; return Failure; }
      if tx in db.transactions {
        var kept := db.transactions[tx].(status := row.status, micros := row.micros);
        db := db.(transactions := db.transactions[tx := kept]);
      } else {
        db := db.(transactions := db.transactions[tx := row]);
      }
      r := Success(());
    }

    method UpsertDetail(tx: TxId, detail: Detail) returns (r: Result<()>)
      modifies this
      ensures failures == old(failures) + Failed(r)
      ensures db == if r.Success? then PostgresOp(old(db), Op.UpsertDetail(tx, detail)) else old(db)
    {
      if * { failures := failures + 1; return Failure; }
      var rows := if tx in db.details then db.details[tx] else map[];
      db := db.(details := db.details[tx := rows[detail.source := detail]]);
      r := Success(());
    }

    method CreateIncident(incident: Incident) returns (r: Result<IncidentId>)
      modifies this
      ensures failures == old(failures) + Failed(r)
      ensures r.Failure? ==> db == old(db)
      ensures r.Success? ==> r.value == |old(db.incidents)| && db == PostgresOp(old(db), Op.CreateIncident(incident))
    {
      if * { failures := failures + 1; return Failure; }
      r := Success(|db.incidents|);
      db := db.(incidents := db.incidents + [IncidentRow(incident, Open, incident.severity, None, None, None)]);
    }

    /** Success(true) exactly when a row was updated. */
    method EscalateIncident(id: IncidentId, severity: int, now: int) returns (r: Result<bool>)
      modifies this
      ensures failures == old(failures) + Failed(r)
      ensures r.Failure? ==> db == old(db)
      ensures r.Success? ==>
                var rows := old(db.incidents);
                r.value == (id < |rows| && rows[id].status == Open && rows[id].severity < severity)
      ensures r.Success? && !r.value ==> db == old(db)
      ensures r.Success? && r.value ==>
                var rows := old(db.incidents);
                db == old(db).(incidents := rows[id := rows[id].(severity := severity, escalatedAt := Some(now))])
    {
      if * { failures := failures + 1; return Failure; }
      if id < |db.incidents| && db.incidents[id].status == Open && db.incidents[id].severity < severity {
        var row := db.incidents[id].(severity := severity, escalatedAt := Some(now));
        db := db.(incidents := db.incidents[id := row]);
        return Success(true);
      }
      r := Success(false);
    }
  }

  datatype HttpStatus = Ok200 | Conflict409 | Error500

  /** api-gateway/handlers: the two conditional updates on the incidents table. */
  class IncidentHandlers {
    const pg: PostgresStore

    constructor (pg: PostgresStore)
      ensures this.pg == pg
    {
      this.pg := pg;
    }

    /** 200 exactly when the incident was open and now is acknowledged. */
    method AcknowledgeIncident(id: IncidentId, now: int) returns (status: HttpStatus)
      modifies pg
      ensures pg.failures == old(pg.failures) + if status == Error500 then 1 else 0
      ensures status == Error500 ==> pg.db == old(pg.db)
      ensures status == Conflict409 ==>
                pg.db == old(pg.db) && (id >= |pg.db.incidents| || pg.db.incidents[id].status != Open)
      ensures status == Ok200 ==>
                var rows := old(pg.db.incidents);
                && id < |rows| && rows[id].status == Open
                && pg.db == old(pg.db).(incidents := rows[id := AcknowledgedRow(rows[id], now)])
    {
      if * { pg.failures := pg.failures + 1; return Error500; }
      if id < |pg.db.incidents| && pg.db.incidents[id].status == Open {
        var row := pg.db.incidents[id].(status := Acknowledged, acknowledgedAt := Some(now));
        pg.db := pg.db.(incidents := pg.db.incidents[id := row]);
        return Ok200;
      }
      status := Conflict409;
    }

    /** 200 exactly when the incident was open or acknowledged and now is resolved. */
    method ResolveIncident(id: IncidentId, now: int) returns (status: HttpStatus)
      modifies pg
      ensures pg.failures == old(pg.failures) + if status == Error500 then 1 else 0
      ensures status == Error500 ==> pg.db == old(pg.db)
      ensures status == Conflict409 ==>
                pg.db == old(pg.db) && (id >= |pg.db.incidents| || pg.db.incidents[id].status == Resolved)
      ensures status == Ok200 ==>
                var rows := old(pg.db.incidents);
                && id < |rows| && rows[id].status != Resolved
                && pg.db == old(pg.db).(incidents := rows[id := ResolvedRow(rows[id], now)])
    {
      if * { pg.failures := pg.failures + 1; return Error500; }
      if id < |pg.db.incidents| && (pg.db.incidents[id].status == Open || pg.db.incidents[id].status == Acknowledged) {
        var row := pg.db.incidents[id].(status := Resolved, resolvedAt := Some(now));
        pg.db := pg.db.(incidents := pg.db.incidents[id := row]);
        return Ok200;
      }
      status := Conflict409;
    }
  }
}
