/** matcher/src/stream.rs: one batch of the loop that delivers and acknowledges messages. */
module Consumer {
  import opened Wrappers
  import opened Store
  import opened Matcher
  import opened Cells
  import opened Engine

  datatype StreamEntry =
    | NoPayload(id: nat) | Unparsable(id: nat) | Parsed(id: nat, d: Delivery)

  /** The steps that a batch amounts to; `stops[i]` says where the handling of entry i stopped. */
  function StepsOf(batch: seq<StreamEntry>, stops: seq<Option<nat>>): seq<Action>
    requires |stops| == |batch|
  {
    if batch == [] then []
    else
      var last := |batch| - 1;
      StepsOf(batch[..last], stops[..last]) +
      (if batch[last].Parsed? then [Deliver(batch[last].d, stops[last])] else [])
  }

  /** Entries that were not handled in vain and whose acknowledgement got through. */
  function Answered(batch: seq<StreamEntry>, stops: seq<Option<nat>>, acks: nat -> bool): set<nat>
    requires |stops| == |batch|
  {
    set i | 0 <= i < |batch| && stops[i].None? && acks(batch[i].id) :: batch[i].id
  }

  lemma StepsOfSnoc(batch: seq<StreamEntry>, stops: seq<Option<nat>>, entry: StreamEntry, stop: Option<nat>)
    requires |stops| == |batch|
    ensures StepsOf(batch + [entry], stops + [stop]) ==
            if entry.Parsed? then StepsOf(batch, stops) + [Deliver(entry.d, stop)] else StepsOf(batch, stops)
  {
    assert StepsOf(batch, stops) + [] == StepsOf(batch, stops);
    assert (batch + [entry])[..|batch|] == batch && (stops + [stop])[..|batch|] == stops;
  }

  lemma AnsweredSnoc(
      batch: seq<StreamEntry>, stops: seq<Option<nat>>, acks: nat -> bool, entry: StreamEntry, stop: Option<nat>)
    requires |stops| == |batch|
    ensures Answered(batch + [entry], stops + [stop], acks) ==
            Answered(batch, stops, acks) + (if stop.None? && acks(entry.id) then {entry.id} else {})
  {
    var n, all, outcomes := |batch|, batch + [entry], stops + [stop];
    assert all[n] == entry && outcomes[n] == stop;
    forall i | 0 <= i < n ensures all[i] == batch[i] && outcomes[i] == stops[i] {}
    var before, after := Answered(batch, stops, acks), Answered(all, outcomes, acks);
    forall id | id in before ensures id in after {
      var i :| 0 <= i < n && stops[i].None? && acks(batch[i].id) && batch[i].id == id;
      assert all[i].id == id;
    }
    if stop.None? && acks(entry.id) { assert all[n].id in after; }
  }

  class StreamConsumer {
    const engine: MatchingEngine
    var acked: set<nat>
    ghost var read: map<nat, StreamEntry>

    /** Across all batches: what is acknowledged was read, and if it could be parsed, its event
        id is claimed. */
    ghost predicate Valid()
      reads this, engine, engine.redis
    {
      && engine.Valid()
      && forall id <- acked ::
           id in read && (read[id].Parsed? ==> read[id].d.event.eventId in engine.redis.db.claims)
    }

    constructor (engine: MatchingEngine)
      requires engine.Valid()
      ensures this.engine == engine && acked == {} && read == map[] && Valid()
    {
      this.engine, acked, read := engine, {}, map[];
    }

    method AckMessage(id: nat, up: bool) returns (r: Result<()>)
      modifies this`acked
      ensures acked == if up then old(acked) + {id} else old(acked)
    {
      if !up { return Failure; }
      acked := acked + {id};
      r := Success(());
    }

    /** One entry. It is acknowledged unless its handling failed or the command did. */
    method ProcessEntry(entry: StreamEntry, up: bool) returns (ghost stop: Option<nat>)
      requires Valid() && entry.id !in read
      modifies this`acked, this`read, engine`windows, engine.redis, engine.pg
      ensures Valid() && read == old(read)[entry.id := entry]
      ensures !entry.Parsed? ==> stop.None? && engine.Now() == old(engine.Now())
      ensures entry.Parsed? ==> engine.Now() == Step(engine.cfg, old(engine.Now()), Deliver(entry.d, stop))
      ensures acked == old(acked) + if stop.None? && up then {entry.id} else {}
      ensures engine.Failures() == old(engine.Failures()) + if stop.Some? then 1 else 0
    {
      hide Step;
      stop := None;
      read := read[entry.id := entry];
      match entry {
        case NoPayload(id) => var _ := AckMessage(id, up);
        case Unparsable(id) => var _ := AckMessage(id, up);
        case Parsed(id, d) =>
          ghost var before := engine.Now();
          var r;
          r, stop := engine.HandleEvent(d);
          ghost var a := Deliver(d, stop);
          assert engine.redis.db.claims == before.redis.claims + ClaimedBy(a) by {
            assert Keyed(before);
            StepOnCell(engine.cfg, before, a, 0);
          }
          if r.Success? {
            var _ := AckMessage(id, up);
          }
      }
    }

    /** One batch. Every parsable entry is handled, in order. An acknowledgement is sent for each
        entry except those whose handling failed on a failing command; `acks` says which ones get through. Entries are
        never read a second time. */
    method ProcessBatch(batch: seq<StreamEntry>, acks: nat -> bool) returns (ghost stops: seq<Option<nat>>)
      requires Valid()
      requires forall i, j | 0 <= i < j < |batch| :: batch[i].id != batch[j].id
      requires forall entry <- batch :: entry.id !in read
      modifies this`acked, this`read, engine`windows, engine.redis, engine.pg
      ensures Valid()
      ensures |stops| == |batch| && forall i | 0 <= i < |batch| :: !batch[i].Parsed? ==> stops[i].None?
      ensures engine.Now() == Run(engine.cfg, old(engine.Now()), StepsOf(batch, stops))
      ensures acked == old(acked) + Answered(batch, stops, acks)
      ensures forall i | 0 <= i < |batch| :: batch[i].id in read && read[batch[i].id] == batch[i]
      ensures engine.Failures() >= old(engine.Failures())
      ensures engine.Failures() == old(engine.Failures()) <==> forall i | 0 <= i < |batch| :: stops[i].None?
    {
      hide Step, Run, StepsOf, Answered;
      ghost var s0, acked0 := engine.Now(), acked;
      stops := [];
      assert StepsOf([], []) == [] && Answered([], [], acks) == {} by { EmptyBatch(acks); }
      assert engine.Now() == Run(engine.cfg, s0, []) by { RunNone(engine.cfg, s0); }
      for i := 0 to |batch|
        invariant Valid() && |stops| == i
        invariant forall j | 0 <= j < i :: !batch[j].Parsed? ==> stops[j].None?
        invariant engine.Now() == Run(engine.cfg, s0, StepsOf(batch[..i], stops))
        invariant acked == acked0 + Answered(batch[..i], stops, acks)
        invariant forall j | 0 <= j < i :: batch[j].id in read && read[batch[j].id] == batch[j]
        invariant forall j | i <= j < |batch| :: batch[j].id !in read
        invariant engine.Failures() >= old(engine.Failures())
        invariant engine.Failures() == old(engine.Failures()) <==> forall j | 0 <= j < i :: stops[j].None?
      {
        assert batch[..i + 1] == batch[..i] + [batch[i]];
        ghost var stop := ProcessEntry(batch[i], acks(batch[i].id));
        if batch[i].Parsed? { RunSnoc(engine.cfg, s0, StepsOf(batch[..i], stops), Deliver(batch[i].d, stop)); }
        StepsOfSnoc(batch[..i], stops, batch[i], stop);
        AnsweredSnoc(batch[..i], stops, acks, batch[i], stop);
        ghost var before := stops;
        stops := stops + [stop];
        assert stops[i] == stop && forall j | 0 <= j < i :: stops[j] == before[j];
      }
      assert batch[..|batch|] == batch;
    }
  }

  lemma EmptyBatch(acks: nat -> bool)
    ensures StepsOf([], []) == [] && Answered([], [], acks) == {}
  {}
}
