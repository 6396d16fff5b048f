/** How long keys with a time to live last: an event id is remembered for the dedup window, a
    checkpoint for 30 seconds, a set of sources for 60. */
module DedupWindow {
  import opened Wrappers
  import opened Model
  import opened Store
  import opened Matcher
  import opened Cells
  import opened Coherence
  import opened Expiry

  /** No store command fails and the clock is monotone. Redeliveries may come at any time. */
  predicate InOrder(steps: seq<TimedStep>, last: int)
    decreases |steps|
  {
    steps == [] ||
    (last <= steps[0].at && OnTime(steps[0]) && Clean(steps[0].action) && InOrder(steps[1..], steps[0].at))
  }

  /** When each event id was last accepted, if an id may be accepted again once the dedup window of
      its last acceptance is over. */
  function Accepted(accepted: map<EventId, int>, x: TimedStep, dedupMs: nat): map<EventId, int> {
    if !x.action.Deliver? then accepted
    else
      var id := x.action.d.event.eventId;
      if id in accepted && x.at < accepted[id] + dedupMs then accepted else accepted[id := x.at]
  }

  function AcceptedAll(accepted: map<EventId, int>, steps: seq<TimedStep>, dedupMs: nat): map<EventId, int>
    decreases |steps|
  {
    if steps == [] then accepted else AcceptedAll(Accepted(accepted, steps[0], dedupMs), steps[1..], dedupMs)
  }

  /** A claim is there exactly while its dedup window lasts. */
  ghost predicate Remembers(t: Expiring, accepted: map<EventId, int>, dedupMs: nat, last: int) {
    && t.store.redis.claims == t.stamps.claims.Keys
    && (forall id <- t.stamps.claims :: id in accepted && t.stamps.claims[id] == accepted[id] + dedupMs)
    && forall id <- accepted :: id in t.stamps.claims || accepted[id] + dedupMs <= last
  }

  lemma PurgedClaims(t: Expiring, accepted: map<EventId, int>, dedupMs: nat, last: int, now: int)
    requires Remembers(t, accepted, dedupMs, last) && last <= now
    ensures Remembers(Purge(t, now), accepted, dedupMs, now)
    ensures forall id: EventId ::
              id in Purge(t, now).store.redis.claims <==> id in accepted && now < accepted[id] + dedupMs
  {
    var p := Purge(t, now);
    forall id: EventId ensures id in p.store.redis.claims <==> id in accepted && now < accepted[id] + dedupMs {}
    assert p.store.redis.claims == p.stamps.claims.Keys;
  }

  lemma StepRemembers(cfg: Config, t: Expiring, x: TimedStep, accepted: map<EventId, int>, dedupMs: nat, last: int)
    requires Remembers(t, accepted, dedupMs, last) && Keyed(t.store) && last <= x.at && Clean(x.action)
    ensures Remembers(ExpiringStep(cfg, dedupMs, t, x), Accepted(accepted, x, dedupMs), dedupMs, x.at)
    ensures Keyed(ExpiringStep(cfg, dedupMs, t, x).store)
  {
    hide Step, StampAll, EffectsOf, CellOf, CellStep, Purge;
    var p, a := Purge(t, x.at), x.action;
    PurgedClaims(t, accepted, dedupMs, last, x.at);
    assert Keyed(p.store) by { PurgedKeyed(t, x.at); }
    StepKeepsKeyed(cfg, p.store, a);
    StepOnCell(cfg, p.store, a, 0);
    StepClaimStamps(cfg, dedupMs, p.store, a, p.stamps, x.at);
  }

  lemma PurgedKeyed(t: Expiring, now: int)
    requires Keyed(t.store)
    ensures Keyed(Purge(t, now).store)
  {}

  lemma {:induction false} RunRemembers(
      cfg: Config, t: Expiring, steps: seq<TimedStep>, accepted: map<EventId, int>, dedupMs: nat, last: int)
    requires Remembers(t, accepted, dedupMs, last) && Keyed(t.store) && InOrder(steps, last)
    ensures Remembers(ExpiringRun(cfg, dedupMs, t, steps), AcceptedAll(accepted, steps, dedupMs),
                      dedupMs, LastAt(steps, last))
    ensures Keyed(ExpiringRun(cfg, dedupMs, t, steps).store)
    ensures last <= LastAt(steps, last)
    decreases |steps|
  {
    hide Remembers, ExpiringStep, Accepted, OnTime, Clean, Keyed;
    if steps == [] {
    } else {
      var x := steps[0];
      StepRemembers(cfg, t, x, accepted, dedupMs, last);
      RunRemembers(cfg, ExpiringStep(cfg, dedupMs, t, x), steps[1..], Accepted(accepted, x, dedupMs), dedupMs, x.at);
    }
  }

  /** After every run without store failures, at every later time: an event id is claimed exactly if
      it was last accepted less than the dedup window ago. */
  lemma ClaimedIffAccepted(cfg: Config, steps: seq<TimedStep>, dedupMs: nat, first: int, now: int, id: EventId)
    requires InOrder(steps, first) && LastAt(steps, first) <= now
    ensures var accepted := AcceptedAll(map[], steps, dedupMs);
            id in Purge(ExpiringRun(cfg, dedupMs, FRESH, steps), now).store.redis.claims <==>
            id in accepted && now < accepted[id] + dedupMs
  {
    hide ExpiringRun, Purge, AcceptedAll;
    RunRemembers(cfg, FRESH, steps, map[], dedupMs, first);
    PurgedClaims(ExpiringRun(cfg, dedupMs, FRESH, steps), AcceptedAll(map[], steps, dedupMs), dedupMs,
                 LastAt(steps, first), now);
  }

  /** So an event that is delivered at `now` is ignored exactly if it was accepted less than the dedup
      window ago, and handled otherwise, as if for the first time. */
  lemma IgnoredIffRecent(cfg: Config, steps: seq<TimedStep>, dedupMs: nat, first: int, d: Delivery)
    requires InOrder(steps, first) && LastAt(steps, first) <= d.env.now
    ensures var accepted, id := AcceptedAll(map[], steps, dedupMs), d.event.eventId;
            var live := Purge(ExpiringRun(cfg, dedupMs, FRESH, steps), d.env.now).store;
            EffectsOf(cfg, live, Deliver(d, None)) == [] <==> id in accepted && d.env.now < accepted[id] + dedupMs
  {
    hide ExpiringRun, Purge, AcceptedAll, NewEventOps;
    ClaimedIffAccepted(cfg, steps, dedupMs, first, d.env.now, d.event.eventId);
  }

  /** An event that starts or continues a window at time `at` keeps its checkpoint for 30 seconds and
      its set of sources for 60 from then on, and no longer unless another event follows. */
  lemma KeptThirtyAndSixtySeconds(cfg: Config, dedupMs: nat, t: Expiring, d: Delivery, now: int)
    requires var p := Purge(t, d.env.now).store;
             && Inv(cfg, p) && d.event.eventId !in p.redis.claims && !Registered(p, d.event)
             && !IsComplete(Extended(cfg, Lookup(p.windows, d.event.tx), d))
    requires Clean(Deliver(d, None))
    ensures var u := ExpiringStep(cfg, dedupMs, t, TimedStep(d.env.now, Deliver(d, None)));
            && d.event.tx in u.store.redis.checkpoints && d.event.tx in u.store.redis.sources
            && (d.event.tx in Purge(u, now).store.redis.checkpoints <==> now < d.env.now + 30_000)
            && (d.event.tx in Purge(u, now).store.redis.sources <==> now < d.env.now + 60_000)
  {
    hide Step, StampAll, EventOps, IsComplete, Inv, Extended, Registered, CellOf, CellStep;
    var p, tx, a := Purge(t, d.env.now), d.event.tx, Deliver(d, None);
    var u := ExpiringStep(cfg, dedupMs, t, TimedStep(d.env.now, a));
    var ops := DeliverOps(cfg, p.store, d);
    InvKeyed(cfg, p.store);
    if tx in p.store.windows { OpenTx(cfg, p.store, tx); }
    ProgressShape(cfg, false, Lookup(p.store.windows, tx), d);
    StampsKept(p.stamps, ops, d.env.now, dedupMs, tx);
    StaysOpenAfter(cfg, p.store, d);
    StepKeepsInv(cfg, p.store, a);
    CoherentTx(cfg, u.store, tx);
    PurgedKeys(u, tx, now);
  }

  lemma PurgedKeys(u: Expiring, tx: TxId, now: int)
    requires tx in u.store.redis.checkpoints && tx in u.store.redis.sources
    requires tx in u.stamps.windows && tx in u.stamps.sources
    ensures tx in Purge(u, now).store.redis.checkpoints <==> u.stamps.windows[tx] > now
    ensures tx in Purge(u, now).store.redis.sources <==> u.stamps.sources[tx] > now
  {}

  lemma StaysOpenAfter(cfg: Config, s: State, d: Delivery)
    requires Inv(cfg, s) && d.event.eventId !in s.redis.claims && !Registered(s, d.event)
    requires !IsComplete(Extended(cfg, Lookup(s.windows, d.event.tx), d)) && Clean(Deliver(d, None))
    ensures d.event.tx in Step(cfg, s, Deliver(d, None)).windows
  {
    hide Step, CellOf, CellStep, Inv, Extended, IsComplete, Finalized;
    var tx, a := d.event.tx, Deliver(d, None);
    InvKeyed(cfg, s);
    StepOnCell(cfg, s, a, tx);
    CleanCellStep(cfg, CellOf(s, tx), false, a);
    CellWindows(s, tx);
    CellWindows(Step(cfg, s, a), tx);
    NotRepeated(s, d.event);
  }

  lemma NotRepeated(s: State, e: PaymentEvent)
    ensures Repeats(CellOf(s, e.tx), e) == Registered(s, e)
  {}
}
