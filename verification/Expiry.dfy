/** The store with its real key expiry, and why expiry never shows while the timer keeps up. */
module Expiry {
  import opened Wrappers
  import opened Model
  import opened Store
  import opened Matcher
  import opened Cells
  import opened Coherence

  const WINDOW_TTL_MS := 30_000
  const SOURCES_TTL_MS := 60_000

  /** When each key expires; a key without an entry does not expire. */
  datatype Stamps = Stamps(claims: map<EventId, int>, sources: map<TxId, int>, windows: map<TxId, int>)

  datatype Expiring = Expiring(store: State, stamps: Stamps)

  predicate Alive<K(==)>(expiry: map<K, int>, k: K, now: int) {
    k in expiry ==> expiry[k] > now
  }

  function Unexpired<K>(expiry: map<K, int>, now: int): map<K, int> {
    map k | k in expiry && expiry[k] > now :: expiry[k]
  }

  /** What is left at time `now`. */
  function Purge(t: Expiring, now: int): Expiring {
    var r := t.store.redis;
    var claims := set id | id in r.claims && Alive(t.stamps.claims, id, now);
    var sources := map tx | tx in r.sources && Alive(t.stamps.sources, tx, now) :: r.sources[tx];
    var checkpoints := map tx | tx in r.checkpoints && Alive(t.stamps.windows, tx, now) :: r.checkpoints[tx];
    Expiring(t.store.(redis := r.(claims := claims, sources := sources, checkpoints := checkpoints)),
             Stamps(Unexpired(t.stamps.claims, now), Unexpired(t.stamps.sources, now),
                    Unexpired(t.stamps.windows, now)))
  }

  /** SET NX PX on a claim, EXPIRE on a source set, SET PX on a checkpoint, and DEL. */
  function StampOp(x: Stamps, op: Op, now: int, dedupMs: nat): Stamps {
    match op
    case ClaimEvent(id) => x.(claims := x.claims[id := now + dedupMs])
    case TouchSources(tx) => x.(sources := x.sources[tx := now + SOURCES_TTL_MS])
    case SaveWindow(w) => x.(windows := x.windows[w.tx := now + WINDOW_TTL_MS])
    case DeleteWindow(tx) => x.(windows := x.windows - {tx})
    case CleanupSources(tx) => x.(sources := x.sources - {tx})
    case _ => x
  }

  function StampAll(x: Stamps, ops: seq<Op>, now: int, dedupMs: nat): Stamps
    decreases |ops|
  {
    if ops == [] then x else StampAll(StampOp(x, ops[0], now, dedupMs), ops[1..], now, dedupMs)
  }

  function EffectsOf(cfg: Config, s: State, a: Action): seq<Op> {
    match a
    case Deliver(d, stop) => Performed(DeliverOps(cfg, s, d), stop)
    case Timeout(tx, env, stop) =>
      if tx in s.popped then Performed(TimeoutOps(cfg, tx, Lookup(s.windows, tx), env), stop) else []
    case _ => []
  }

  datatype TimedStep = TimedStep(at: int, action: Action)

  predicate OnTime(x: TimedStep) {
    && (x.action.Deliver? ==> x.action.d.env.now == x.at)
    && (x.action.Timeout? ==> x.action.env.now == x.at)
  }

  /** One step of the engine on the expiring store. */
  function ExpiringStep(cfg: Config, dedupMs: nat, t: Expiring, x: TimedStep): Expiring {
    var p := Purge(t, x.at);
    Expiring(Step(cfg, p.store, x.action), StampAll(p.stamps, EffectsOf(cfg, p.store, x.action), x.at, dedupMs))
  }

  // ----- Claims are read one at a time -----

  function WithClaims(s: State, claims: set<EventId>): State {
    s.(redis := s.redis.(claims := claims))
  }

  predicate SameButClaims(s: State, t: State) {
    WithClaims(s, {}) == WithClaims(t, {})
  }

  lemma OpSameButClaims(s: State, t: State, op: Op)
    requires SameButClaims(s, t)
    ensures SameButClaims(ApplyOp(s, op), ApplyOp(t, op))
  {
    hide RedisOp, PostgresOp, MemoryOp;
    assert WithClaims(s, {}).redis == WithClaims(t, {}).redis;
    assert WithClaims(s, {}).pg == s.pg && WithClaims(s, {}).windows == s.windows;
    assert WithClaims(t, {}).pg == t.pg && WithClaims(t, {}).windows == t.windows;
    ClaimsIgnored(s.redis, op, |s.pg.incidents| - 1);
    ClaimsIgnored(t.redis, op, |s.pg.incidents| - 1);
  }

  lemma ClaimsIgnored(r: Redis, op: Op, lastIncident: int)
    ensures RedisOp(r, op, lastIncident).(claims := {}) == RedisOp(r.(claims := {}), op, lastIncident).(claims := {})
  {
    hide RedisOp;
    if op.ClaimEvent? || op.RecordProcessed? || op.RecordMatch? {
      CountersIgnoreClaims(r, op, lastIncident);
    } else if op.AddEscalation? {
      EscalationsIgnoreClaims(r, op.at, lastIncident);
    } else {
      KeysIgnoreClaims(r, op, lastIncident);
    }
  }

  lemma CountersIgnoreClaims(r: Redis, op: Op, lastIncident: int)
    requires op.ClaimEvent? || op.RecordProcessed? || op.RecordMatch?
    ensures RedisOp(r, op, lastIncident).(claims := {}) == RedisOp(r.(claims := {}), op, lastIncident).(claims := {})
  {
    var bare := r.(claims := {});
    match op
    case ClaimEvent(id) => assert RedisOp(bare, op, lastIncident) == bare.(claims := {} + {id});
    case RecordProcessed => assert RedisOp(bare, op, lastIncident) == bare.(processed := r.processed + 1);
    case RecordMatch(success) =>
      if success {
        assert RedisOp(bare, op, lastIncident) == bare.(matched := r.matched + 1);
      } else {
        assert RedisOp(bare, op, lastIncident) == bare.(mismatched := r.mismatched + 1);
      }
  }

  lemma EscalationsIgnoreClaims(r: Redis, at: int, lastIncident: int)
    ensures var op := AddEscalation(at);
            RedisOp(r, op, lastIncident).(claims := {}) == RedisOp(r.(claims := {}), op, lastIncident).(claims := {})
  {}

  lemma KeysIgnoreClaims(r: Redis, op: Op, lastIncident: int)
    requires !op.ClaimEvent? && !op.RecordProcessed? && !op.RecordMatch? && !op.AddEscalation?
    ensures RedisOp(r, op, lastIncident).(claims := {}) == RedisOp(r.(claims := {}), op, lastIncident).(claims := {})
  {
    hide Lookup, OrEmpty;
  }

  lemma {:induction false} ApplySameButClaims(s: State, t: State, ops: seq<Op>)
    requires SameButClaims(s, t)
    ensures SameButClaims(Apply(s, ops), Apply(t, ops))
    decreases |ops|
  {
    hide ApplyOp, SameButClaims;
    if ops == [] {
    } else {
      OpSameButClaims(s, t, ops[0]);
      ApplySameButClaims(ApplyOp(s, ops[0]), ApplyOp(t, ops[0]), ops[1..]);
    }
  }

  lemma StepSameButClaims(cfg: Config, s: State, t: State, a: Action)
    requires SameButClaims(s, t)
    requires AlreadyClaimed(s, a) == AlreadyClaimed(t, a)
    ensures SameButClaims(Step(cfg, s, a), Step(cfg, t, a))
    ensures EffectsOf(cfg, s, a) == EffectsOf(cfg, t, a)
  {
    hide Apply, EventOps, TimeoutOps, Performed;
    assert s.windows == t.windows && s.pg == t.pg && s.popped == t.popped
           && s.poppedEscalations == t.poppedEscalations;
    assert s.redis.sources == t.redis.sources && s.redis.escalations == t.redis.escalations
           && s.redis.deadlines == t.redis.deadlines;
    match a
    case Deliver(d, stop) => ApplySameButClaims(s, t, Performed(DeliverOps(cfg, s, d), stop));
    case Timeout(tx, env, stop) =>
      if tx in s.popped {
        ApplySameButClaims(s.(popped := s.popped - multiset{tx}), t.(popped := t.popped - multiset{tx}),
                           Performed(TimeoutOps(cfg, tx, Lookup(s.windows, tx), env), stop));
      }
    case _ =>
  }

  // ----- Stamps of one transaction -----

  lemma {:induction false} StampsElsewhere(x: Stamps, ops: seq<Op>, now: int, dedupMs: nat, owner: TxId, tx: TxId)
    requires tx != owner && Own(ops, owner)
    ensures var y := StampAll(x, ops, now, dedupMs);
            Lookup(y.windows, tx) == Lookup(x.windows, tx) && Lookup(y.sources, tx) == Lookup(x.sources, tx)
    decreases |ops|
  {
    if ops == [] {
    } else {
      StampsElsewhere(StampOp(x, ops[0], now, dedupMs), ops[1..], now, dedupMs, owner, tx);
    }
  }

  /** Without deletions, stamps of `tx` are renewed or stay; a save renews the window's. */
  lemma {:induction false} StampsKept(x: Stamps, ops: seq<Op>, now: int, dedupMs: nat, tx: TxId)
    requires forall op <- ops :: !op.DeleteWindow? && !op.CleanupSources?
    ensures var y := StampAll(x, ops, now, dedupMs);
            && Lookup(y.windows, tx) in {Lookup(x.windows, tx), Some(now + WINDOW_TTL_MS)}
            && Lookup(y.sources, tx) in {Lookup(x.sources, tx), Some(now + SOURCES_TTL_MS)}
            && ((exists op <- ops :: op.SaveWindow? && op.window.tx == tx) ==>
                  Lookup(y.windows, tx) == Some(now + WINDOW_TTL_MS))
            && ((exists op <- ops :: op == TouchSources(tx)) ==>
                  Lookup(y.sources, tx) == Some(now + SOURCES_TTL_MS))
    decreases |ops|
  {
    if ops == [] {
    } else {
      assert ops[0] in ops;
      var x1 := StampOp(x, ops[0], now, dedupMs);
      StampsKept(x1, ops[1..], now, dedupMs, tx);
      if exists op <- ops :: op.SaveWindow? && op.window.tx == tx {
        var op :| op in ops && op.SaveWindow? && op.window.tx == tx;
        if op != ops[0] { assert op in ops[1..]; }
      }
      if TouchSources(tx) in ops && TouchSources(tx) != ops[0] { assert TouchSources(tx) in ops[1..]; }
    }
  }

  // ----- Refinement -----

  /** Every open window was opened no later than `last`, and its checkpoint and source set
      expire no earlier than a full time-to-live after that. */
  ghost predicate Stamped(s: State, x: Stamps, last: int) {
    forall tx <- s.windows ::
      var since := s.windows[tx].firstSeen;
      && since <= last
      && tx in x.windows && x.windows[tx] >= since + WINDOW_TTL_MS
      && tx in x.sources && x.sources[tx] >= since + SOURCES_TTL_MS
  }

  /** A claim is still there, or its dedup window is over. */
  ghost predicate ClaimsKept(t: Expiring, s: State, claimedAt: map<EventId, int>, dedupMs: nat, last: int) {
    && t.store.redis.claims <= s.redis.claims == claimedAt.Keys
    && forall id <- claimedAt ::
         || claimedAt[id] + dedupMs <= last
         || (id in t.store.redis.claims && id in t.stamps.claims && t.stamps.claims[id] == claimedAt[id] + dedupMs)
  }

  ghost predicate Refines(
      cfg: Config, t: Expiring, s: State, claimedAt: map<EventId, int>, dedupMs: nat, last: int) {
    && Inv(cfg, s) && SameButClaims(t.store, s)
    && ClaimsKept(t, s, claimedAt, dedupMs, last) && Stamped(s, t.stamps, last)
  }

  /** The timer keeps up: no open window is older than its deadline plus `slack`. */
  ghost predicate Prompt(s: State, now: int, slack: nat) {
    forall tx <- s.windows :: now <= s.windows[tx].deadline + slack
  }

  /** A redelivery comes inside the dedup window. */
  predicate InDedupWindow(claimedAt: map<EventId, int>, x: TimedStep, dedupMs: nat) {
    x.action.Deliver? && x.action.d.event.eventId in claimedAt ==>
      x.at < claimedAt[x.action.d.event.eventId] + dedupMs
  }

  function Claimed(claimedAt: map<EventId, int>, x: TimedStep): map<EventId, int> {
    if x.action.Deliver? && x.action.d.event.eventId !in claimedAt
    then claimedAt[x.action.d.event.eventId := x.at] else claimedAt
  }

  lemma PurgeKeeps(
      cfg: Config, t: Expiring, s: State, claimedAt: map<EventId, int>, dedupMs: nat, last: int, now: int, slack: nat)
    requires Refines(cfg, t, s, claimedAt, dedupMs, last) && last <= now && Prompt(s, now, slack)
    requires cfg.timeoutMs + slack < WINDOW_TTL_MS
    ensures Refines(cfg, Purge(t, now), s, claimedAt, dedupMs, now)
    ensures forall id <- claimedAt :: claimedAt[id] + dedupMs > now ==> id in Purge(t, now).store.redis.claims
  {
    hide Inv, WellKeyed;
    var p := Purge(t, now);
    PurgeKeepsWindows(cfg, t, s, last, now, slack);
    assert ClaimsKept(p, s, claimedAt, dedupMs, now);
  }

  lemma PurgeKeepsWindows(cfg: Config, t: Expiring, s: State, last: int, now: int, slack: nat)
    requires Inv(cfg, s) && SameButClaims(t.store, s) && Stamped(s, t.stamps, last)
    requires last <= now && Prompt(s, now, slack)
    requires cfg.timeoutMs + slack < WINDOW_TTL_MS
    ensures SameButClaims(Purge(t, now).store, s) && Stamped(s, Purge(t, now).stamps, now)
  {
    hide Inv, WellKeyed;
    InvMeaning(cfg, s);
    var p := Purge(t, now);
    assert WithClaims(t.store, {}) == WithClaims(s, {});
    assert t.store.redis.sources == s.redis.sources && t.store.redis.checkpoints == s.redis.checkpoints;
    forall tx | tx in s.windows
      ensures Alive(t.stamps.windows, tx, now) && Alive(t.stamps.sources, tx, now)
    {
      WindowDeadline(cfg, s, tx);
    }
    assert p.store.redis.checkpoints == s.redis.checkpoints;
    assert p.store.redis.sources == s.redis.sources;
    assert SameButClaims(p.store, s);
    assert Stamped(s, p.stamps, now);
  }

  lemma WindowDeadline(cfg: Config, s: State, tx: TxId)
    requires Inv(cfg, s) && tx in s.windows
    ensures s.windows[tx].deadline == s.windows[tx].firstSeen + cfg.timeoutMs
  {
    hide Inv, IncidentsOf, WellKeyed, IsComplete;
    CoherentTx(cfg, s, tx);
  }

  // ----- One step -----

  predicate Harmless(ops: seq<Op>) {
    forall op <- ops :: !op.DeleteWindow? && !op.CleanupSources?
  }

  lemma ProgressShape(cfg: Config, registered: bool, open: Option<Window>, d: Delivery)
    requires registered || !IsComplete(Extended(cfg, open, d))
    requires open.Some? ==> open.value.tx == d.event.tx
    ensures var ops := EventOps(cfg, false, registered, open, d);
            && Harmless(ops)
            && TouchSources(d.event.tx) in ops
            && (!registered ==> exists op <- ops :: op.SaveWindow? && op.window.tx == d.event.tx)
  {
    hide IsComplete, Joined;
    var ops := EventOps(cfg, false, registered, open, d);
    assert ops[2] == TouchSources(d.event.tx);
    if registered {
      assert Harmless(DuplicateOps(cfg, d));
    } else {
      ArrivalHarmless(cfg, open, d);
      var w := Extended(cfg, open, d);
      assert w.tx == d.event.tx by { ExtendedTx(cfg, open, d); }
      assert SaveWindow(w) in ArrivalOps(cfg, open, d);
      assert SaveWindow(w) in ops;
    }
  }

  lemma ExtendedTx(cfg: Config, open: Option<Window>, d: Delivery)
    requires open.Some? ==> open.value.tx == d.event.tx
    ensures Extended(cfg, open, d).tx == d.event.tx
  {}

  lemma ArrivalHarmless(cfg: Config, open: Option<Window>, d: Delivery)
    requires !IsComplete(Extended(cfg, open, d))
    ensures Harmless(ArrivalOps(cfg, open, d))
    ensures SaveWindow(Extended(cfg, open, d)) in ArrivalOps(cfg, open, d)
  {
    hide IsComplete, Joined;
    var w := Extended(cfg, open, d);
    var middle := [SetWindow(w), SaveWindow(w)];
    assert middle[1] in middle;
    assert Harmless(OpenOps(cfg, open, d)) && Harmless(middle) && Harmless(ResultOps(cfg, w, d.env));
  }

  lemma EffectsElsewhere(cfg: Config, dedupMs: nat, s: State, a: Action, x: Stamps, now: int, tx: TxId)
    requires Keyed(s) && ActionTx(a) != Some(tx)
    ensures var y := StampAll(x, EffectsOf(cfg, s, a), now, dedupMs);
            Lookup(y.windows, tx) == Lookup(x.windows, tx) && Lookup(y.sources, tx) == Lookup(x.sources, tx)
  {
    hide NewEventOps, TimeoutOps, Own;
    match a
    case Deliver(d, stop) =>
      var open, id := Lookup(s.windows, d.event.tx), d.event.eventId;
      var done := Performed(DeliverOps(cfg, s, d), stop);
      if id !in s.redis.claims && done != [] {
        var rest := NewEventOps(cfg, Registered(s, d.event), open, d);
        assert DeliverOps(cfg, s, d) == [ClaimEvent(id)] + rest;
        assert done[0] == ClaimEvent(id) && done[1..] == rest[..|done| - 1];
        EventOwn(cfg, Registered(s, d.event), open, d);
        OwnPrefix(rest, |done| - 1, d.event.tx);
        StampsElsewhere(StampOp(x, done[0], now, dedupMs), done[1..], now, dedupMs, d.event.tx, tx);
      } else {
        assert done == [];
      }
    case Timeout(t, env, stop) =>
      if t in s.popped {
        var ops := TimeoutOps(cfg, t, Lookup(s.windows, t), env);
        TimeoutOwn(cfg, t, Lookup(s.windows, t), env);
        PerformedOwn(ops, stop, t);
        StampsElsewhere(x, Performed(ops, stop), now, dedupMs, t, tx);
      }
    case _ =>
  }

  predicate StampedTx(open: Option<Window>, x: Stamps, tx: TxId, last: int) {
    open.Some? ==>
      var since := open.value.firstSeen;
      && since <= last
      && tx in x.windows && x.windows[tx] >= since + WINDOW_TTL_MS
      && tx in x.sources && x.sources[tx] >= since + SOURCES_TTL_MS
  }

  lemma NoStamps(x: Stamps, now: int, dedupMs: nat)
    ensures StampAll(x, [], now, dedupMs) == x
  {}

  lemma FinalizedWindow(c: Cell, w: Window, env: Env)
    ensures Finalized(c, w, env).window.None?
  {}

  lemma OpenTx(cfg: Config, s: State, tx: TxId)
    requires Inv(cfg, s) && tx in s.windows
    ensures s.windows[tx].tx == tx
  {}

  lemma OwnDelivery(cfg: Config, dedupMs: nat, s: State, d: Delivery, x: Stamps)
    requires Inv(cfg, s) && StampedTx(Lookup(s.windows, d.event.tx), x, d.event.tx, d.env.now)
    ensures var tx, c := d.event.tx, CellOf(s, d.event.tx);
            var after := if d.event.eventId in s.redis.claims then c else AfterEvent(cfg, c, d);
            StampedTx(after.window, StampAll(x, DeliverOps(cfg, s, d), d.env.now, dedupMs), tx, d.env.now)
  {
    hide Inv, IncidentsOf, WellKeyed, IsComplete, EventOps, Finalized, StampAll;
    var tx, open := d.event.tx, Lookup(s.windows, d.event.tx);
    var ops := DeliverOps(cfg, s, d);
    CoherentTx(cfg, s, tx);
    var c := CellOf(s, tx);
    assert c.window == open && Repeats(c, d.event) == Registered(s, d.event);
    if d.event.eventId in s.redis.claims {
      NoEventOps(cfg, Registered(s, d.event), open, d);
      NoStamps(x, d.env.now, dedupMs);
    } else if Registered(s, d.event) || !IsComplete(Extended(cfg, open, d)) {
      if open.Some? { OpenTx(cfg, s, tx); }
      ProgressShape(cfg, Registered(s, d.event), open, d);
      StampsKept(x, ops, d.env.now, dedupMs, tx);
    } else {
      FinalizedWindow(c, Matcher.Timed(Extended(cfg, open, d), d.env.elapsed), d.env);
    }
  }

  lemma OwnStep(cfg: Config, dedupMs: nat, s: State, a: Action, x: Stamps, now: int, tx: TxId)
    requires Inv(cfg, s) && Clean(a) && OnTime(TimedStep(now, a)) && ActionTx(a) == Some(tx)
    requires StampedTx(Lookup(s.windows, tx), x, tx, now)
    ensures StampedTx(Lookup(Step(cfg, s, a).windows, tx), StampAll(x, EffectsOf(cfg, s, a), now, dedupMs), tx, now)
  {
    hide Inv, CellOf, Step, CellStep, AfterEvent, AfterTimeout, StampAll, DeliverOps, TimeoutOps, StampedTx;
    InvKeyed(cfg, s);
    StepOnCell(cfg, s, a, tx);
    CleanCellStep(cfg, CellOf(s, tx), AlreadyClaimed(s, a), a);
    CellWindows(s, tx);
    CellWindows(Step(cfg, s, a), tx);
    NoStamps(x, now, dedupMs);
    match a
    case Deliver(d, _) => OwnDelivery(cfg, dedupMs, s, d, x);
    case Timeout(_, env, _) =>
      CellPopped(s, tx);
      if tx in s.popped {
        ClosedByTimeout(CellOf(s, tx), tx, env);
        assert Lookup(Step(cfg, s, a).windows, tx) == None;
        NothingOpen(StampAll(x, EffectsOf(cfg, s, a), now, dedupMs), tx, now);
      }
    case _ =>
  }

  lemma CellPopped(s: State, tx: TxId)
    ensures CellOf(s, tx).popped == s.popped[tx]
  {}

  lemma ClosedByTimeout(c: Cell, tx: TxId, env: Env)
    requires c.popped > 0
    ensures AfterTimeout(c.(popped := c.popped - 1), tx, env).window.None?
  {}

  lemma NothingOpen(x: Stamps, tx: TxId, now: int)
    ensures StampedTx(None, x, tx, now)
  {}

  lemma StepStamped(cfg: Config, dedupMs: nat, s: State, a: Action, x: Stamps, now: int)
    requires Inv(cfg, s) && Clean(a) && OnTime(TimedStep(now, a)) && Stamped(s, x, now)
    ensures Stamped(Step(cfg, s, a), StampAll(x, EffectsOf(cfg, s, a), now, dedupMs), now)
  {
    hide Inv, CellOf, Step, CellStep, StampAll, EffectsOf;
    InvKeyed(cfg, s);
    var t, y := Step(cfg, s, a), StampAll(x, EffectsOf(cfg, s, a), now, dedupMs);
    forall tx: TxId ensures StampedTx(Lookup(t.windows, tx), y, tx, now) {
      if ActionTx(a) == Some(tx) {
        OwnStep(cfg, dedupMs, s, a, x, now, tx);
      } else {
        EffectsElsewhere(cfg, dedupMs, s, a, x, now, tx);
        StepOnCell(cfg, s, a, tx);
        CellWindows(s, tx);
        CellWindows(t, tx);
      }
    }
    forall tx | tx in t.windows ensures StampedTx(Lookup(t.windows, tx), y, tx, now) {}
  }

  lemma {:induction false} StampsClaims(x: Stamps, ops: seq<Op>, now: int, dedupMs: nat, tx: TxId)
    requires Own(ops, tx)
    ensures StampAll(x, ops, now, dedupMs).claims == x.claims
    decreases |ops|
  {
    if ops == [] {
    } else {
      StampsClaims(StampOp(x, ops[0], now, dedupMs), ops[1..], now, dedupMs, tx);
    }
  }

  lemma StepClaimStamps(cfg: Config, dedupMs: nat, s: State, a: Action, x: Stamps, now: int)
    requires Keyed(s) && Clean(a)
    ensures StampAll(x, EffectsOf(cfg, s, a), now, dedupMs).claims ==
            if a.Deliver? && a.d.event.eventId !in s.redis.claims
            then x.claims[a.d.event.eventId := now + dedupMs] else x.claims
  {
    hide NewEventOps, TimeoutOps, Own;
    match a
    case Deliver(d, _) =>
      var open, id := Lookup(s.windows, d.event.tx), d.event.eventId;
      if id in s.redis.claims {
        NoEventOps(cfg, Registered(s, d.event), open, d);
      } else {
        var rest := NewEventOps(cfg, Registered(s, d.event), open, d);
        var ops := DeliverOps(cfg, s, d);
        assert ops == [ClaimEvent(id)] + rest && ops[1..] == rest;
        EventOwn(cfg, Registered(s, d.event), open, d);
        StampsClaims(StampOp(x, ops[0], now, dedupMs), rest, now, dedupMs, d.event.tx);
      }
    case Timeout(t, env, _) =>
      if t in s.popped {
        TimeoutOwn(cfg, t, Lookup(s.windows, t), env);
        StampsClaims(x, TimeoutOps(cfg, t, Lookup(s.windows, t), env), now, dedupMs, t);
      }
    case _ =>
  }

  /** One step of the expiring store stays in step with the store without expiry. */
  lemma StepRefines(
      cfg: Config, t: Expiring, s: State, claimedAt: map<EventId, int>,
      dedupMs: nat, last: int, slack: nat, x: TimedStep)
    requires Refines(cfg, t, s, claimedAt, dedupMs, last) && last <= x.at && Prompt(s, x.at, slack)
    requires cfg.timeoutMs + slack < WINDOW_TTL_MS
    requires Clean(x.action) && OnTime(x) && InDedupWindow(claimedAt, x, dedupMs)
    ensures Refines(cfg, ExpiringStep(cfg, dedupMs, t, x), Step(cfg, s, x.action), Claimed(claimedAt, x), dedupMs, x.at)
  {
    hide Inv, Step, StampAll, EffectsOf, Stamped, Purge, SameButClaims, ClaimsKept, Keyed, CellOf, Claimed, Prompt,
         InDedupWindow, CellStep;
    var p, a := Purge(t, x.at), x.action;
    PurgeKeeps(cfg, t, s, claimedAt, dedupMs, last, x.at, slack);
    ClaimAgrees(p, s, claimedAt, dedupMs, x);
    StepSameButClaims(cfg, p.store, s, a);
    StepKeepsInv(cfg, s, a);
    StepStamped(cfg, dedupMs, s, a, p.stamps, x.at);
    InvKeyed(cfg, s);
    assert Keyed(p.store) by { SameWindows(p.store, s); }
    StepOnCell(cfg, s, a, 0);
    StepOnCell(cfg, p.store, a, 0);
    StepClaimStamps(cfg, dedupMs, p.store, a, p.stamps, x.at);
    ClaimsStep(p, s, a, claimedAt, dedupMs, x, ExpiringStep(cfg, dedupMs, t, x), Step(cfg, s, a));
  }

  lemma ClaimAgrees(p: Expiring, s: State, claimedAt: map<EventId, int>, dedupMs: nat, x: TimedStep)
    requires ClaimsKept(p, s, claimedAt, dedupMs, x.at) && InDedupWindow(claimedAt, x, dedupMs)
    ensures AlreadyClaimed(p.store, x.action) == AlreadyClaimed(s, x.action)
  {}

  lemma SameWindows(s: State, t: State)
    requires SameButClaims(s, t) && Keyed(t)
    ensures Keyed(s)
  {
    assert s.windows == t.windows;
  }

  lemma ClaimsStep(p: Expiring, s: State, a: Action, claimedAt: map<EventId, int>, dedupMs: nat, x: TimedStep,
                   p': Expiring, s': State)
    requires ClaimsKept(p, s, claimedAt, dedupMs, x.at) && x.action == a && Clean(a)
    requires AlreadyClaimed(p.store, a) == AlreadyClaimed(s, a)
    requires p'.store.redis.claims == p.store.redis.claims + ClaimedBy(a)
    requires s'.redis.claims == s.redis.claims + ClaimedBy(a)
    requires p'.stamps.claims ==
             if a.Deliver? && a.d.event.eventId !in p.store.redis.claims
             then p.stamps.claims[a.d.event.eventId := x.at + dedupMs] else p.stamps.claims
    ensures ClaimsKept(p', s', Claimed(claimedAt, x), dedupMs, x.at)
  {}

  // ----- Runs -----

  function ExpiringRun(cfg: Config, dedupMs: nat, t: Expiring, steps: seq<TimedStep>): Expiring
    decreases |steps|
  {
    if steps == [] then t else ExpiringRun(cfg, dedupMs, ExpiringStep(cfg, dedupMs, t, steps[0]), steps[1..])
  }

  function Actions(steps: seq<TimedStep>): seq<Action> {
    if steps == [] then [] else [steps[0].action] + Actions(steps[1..])
  }

  /** The clock is monotone, no store command fails, the timer keeps up with its deadlines and
      redeliveries come inside the dedup window. */
  ghost predicate Timely(
      cfg: Config, s: State, steps: seq<TimedStep>, claimedAt: map<EventId, int>, dedupMs: nat, last: int, slack: nat)
    decreases |steps|
  {
    steps == [] ||
    (var x := steps[0];
     && last <= x.at && OnTime(x) && Clean(x.action) && Prompt(s, x.at, slack) && InDedupWindow(claimedAt, x, dedupMs)
     && Timely(cfg, Step(cfg, s, x.action), steps[1..], Claimed(claimedAt, x), dedupMs, x.at, slack))
  }

  function ClaimedAll(claimedAt: map<EventId, int>, steps: seq<TimedStep>): map<EventId, int>
    decreases |steps|
  {
    if steps == [] then claimedAt else ClaimedAll(Claimed(claimedAt, steps[0]), steps[1..])
  }

  function LastAt(steps: seq<TimedStep>, last: int): int
    decreases |steps|
  {
    if steps == [] then last else LastAt(steps[1..], steps[0].at)
  }

  lemma {:induction false} RunRefines(
      cfg: Config, t: Expiring, s: State, steps: seq<TimedStep>, claimedAt: map<EventId, int>,
      dedupMs: nat, last: int, slack: nat)
    requires Refines(cfg, t, s, claimedAt, dedupMs, last) && cfg.timeoutMs + slack < WINDOW_TTL_MS
    requires Timely(cfg, s, steps, claimedAt, dedupMs, last, slack)
    ensures Refines(cfg, ExpiringRun(cfg, dedupMs, t, steps), Run(cfg, s, Actions(steps)),
                    ClaimedAll(claimedAt, steps), dedupMs, LastAt(steps, last))
    decreases |steps|
  {
    hide Refines, ExpiringStep, Step, Prompt, InDedupWindow, Claimed, OnTime;
    if steps == [] {
    } else {
      var x := steps[0];
      StepRefines(cfg, t, s, claimedAt, dedupMs, last, slack, x);
      RunRefines(cfg, ExpiringStep(cfg, dedupMs, t, x), Step(cfg, s, x.action), steps[1..], Claimed(claimedAt, x),
                 dedupMs, x.at, slack);
      assert Actions(steps)[1..] == Actions(steps[1..]);
    }
  }

  const FRESH := Expiring(INIT, Stamps(map[], map[], map[]))

  /** If no open window is ever older than its deadline plus `slack` and timeout + slack is less
      than the checkpoint's time-to-live, then what is left of the expiring store at `now` is the
      store without expiry, save for claims whose dedup window is over. Module Schedule derives
      the bound on a window's age from the timer's passes. */
  lemma PromptMeansUnexpired(cfg: Config, steps: seq<TimedStep>, dedupMs: nat, start: int, slack: nat, now: int)
    requires cfg.timeoutMs + slack < WINDOW_TTL_MS
    requires Timely(cfg, INIT, steps, map[], dedupMs, start, slack)
    requires LastAt(steps, start) <= now && Prompt(Run(cfg, INIT, Actions(steps)), now, slack)
    ensures var live := Purge(ExpiringRun(cfg, dedupMs, FRESH, steps), now).store;
            && SameButClaims(live, Run(cfg, INIT, Actions(steps)))
            && live.redis.claims <= Run(cfg, INIT, Actions(steps)).redis.claims
  {
    hide Run, ExpiringRun, Purge, Timely, Prompt, Actions, Inv;
    InitCoherent(cfg);
    RunRefines(cfg, FRESH, INIT, steps, map[], dedupMs, start, slack);
    var t, s := ExpiringRun(cfg, dedupMs, FRESH, steps), Run(cfg, INIT, Actions(steps));
    PurgeKeeps(cfg, t, s, ClaimedAll(map[], steps), dedupMs, LastAt(steps, start), now, slack);
  }
}
