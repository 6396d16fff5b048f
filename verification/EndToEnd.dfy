/** From the ingestor's replies to the matcher's verdict. */
module EndToEnd {
  import opened Wrappers
  import opened Model
  import opened Store
  import opened Matcher
  import opened Cells
  import opened Coherence
  import opened Streaming
  import opened Ingestor

  /** The event is what some message of the stream decodes to. */
  predicate FromStream(stream: seq<Message>, e: PaymentEvent) {
    exists m <- stream :: Decode(m.event) == Some(e)
  }

  predicate AllFromStream(stream: seq<Message>, actions: seq<Action>) {
    forall a <- actions :: a.Deliver? ==> FromStream(stream, a.d.event)
  }

  /** The event was validated when its request was received. */
  ghost predicate Validated(e: PaymentEvent) {
    exists raw: RawEvent, now: int :: ValidateEvent(raw, now) == None && Decode(raw) == Some(e)
  }

  lemma StreamIsValidated(ingest: seq<Event>, e: PaymentEvent)
    requires FromStream(NextAll(START, ingest).stream, e)
    ensures Validated(e)
  {
    hide NextAll, ValidateEvent, Decode;
    NextAllOk(START, ingest);
    var s := NextAll(START, ingest);
    var m :| m in s.stream && Decode(m.event) == Some(e);
    assert MessageOk(s, m);
    var i :| i in s.requests && s.requests[i].event == m.event
             && ValidateEvent(m.event, s.requests[i].receivedAt) == None;
  }

  /** The first events that a listener knows are events that were delivered. */
  lemma {:induction false} FirstsFromStream(stream: seq<Message>, x: Session, actions: seq<Action>, tx: TxId)
    requires AllFromStream(stream, actions)
    requires forall src <- x.firsts :: x.firsts[src].source == src && FromStream(stream, x.firsts[src])
    ensures var y := ListenAll(x, actions, tx);
            forall src <- y.firsts :: y.firsts[src].source == src && FromStream(stream, y.firsts[src])
    decreases |actions|
  {
    hide FromStream;
    if actions == [] {
    } else {
      assert actions[0] in actions;
      var z := Listen(x, actions[0], tx);
      FirstsFromStream(stream, z, actions[1..], tx);
      assert ListenAll(x, actions, tx) == ListenAll(z, actions[1..], tx);
    }
  }

  /** On three validated events the batch verdict is a statement about money. */
  lemma ValidatedBalance(w: Window)
    requires IsComplete(w) && forall src <- w.events :: Validated(w.events[src])
    ensures Merchant in w.events && Gateway in w.events && Bank in w.events
    ensures var m, g, b := w.events[Merchant], w.events[Gateway], w.events[Bank];
            && I64_MIN <= g.amount - g.fee <= I64_MAX
            && (CheckInvariants(w).Matched? <==>
                  m.currency == g.currency == b.currency && m.amount == g.amount && m.amount == b.amount + g.fee)
  {
    hide ValidateEvent, CheckInvariants;
    CompleteMeansAllThree(w);
    var m, mt :| ValidateEvent(m, mt) == None && Decode(m) == Some(w.events[Merchant]);
    var g, gt :| ValidateEvent(g, gt) == None && Decode(g) == Some(w.events[Gateway]);
    var b, bt :| ValidateEvent(b, bt) == None && Decode(b) == Some(w.events[Bank]);
    var raw := map[Merchant := m, Gateway := g, Bank := b];
    forall src | src in w.events ensures src in raw { match src case Merchant => case Gateway => case Bank => }
    AcceptedWindowsBalance(w, raw, map[Merchant := mt, Gateway := gt, Bank := bt]);
  }

  /** Whatever requests arrive at the ingestor, in whatever interleaving and with whatever failures:
      let the matcher consume messages of its stream, without failures of its own, while a session
      of a transaction is open, and let the last of them be the third source's first event. Then the
      transaction's status is matched exactly if the three first events agree on the currency and
      merchant amount = gateway amount = bank amount + gateway fee, as integers; rows and incidents
      are the batch's. */
  lemma StreamIsReconciled(
      cfg: Config, ingest: seq<Event>, s: State, actions: seq<Action>, last: Action, tx: TxId)
    requires Inv(cfg, s) && tx !in s.windows
    requires AllClean(actions) && Clean(last) && last.Deliver? && NotTimedOut(actions, tx)
    requires AllFromStream(NextAll(START, ingest).stream, actions + [last])
    requires !Full(ListenAll(Session(s.redis.claims, map[]), actions, tx).firsts)
    requires Full(Listen(ListenAll(Session(s.redis.claims, map[]), actions, tx), last, tx).firsts)
    ensures var firsts := Listen(ListenAll(Session(s.redis.claims, map[]), actions, tx), last, tx).firsts;
            var before := Run(cfg, s, actions);
            var after := CellOf(Step(cfg, before, last), tx);
            && ReportedInBatch(CellOf(before, tx), after, tx, firsts)
            && Merchant in firsts && Gateway in firsts && Bank in firsts
            && var m, g, b := firsts[Merchant], firsts[Gateway], firsts[Bank];
               (after.row.value.status == MatchedStatus <==>
                  m.currency == g.currency == b.currency && m.amount == g.amount && m.amount == b.amount + g.fee)
  {
    hide Inv, CellOf, Step, NextAll, CheckInvariants, RowsBySource, FromStream;
    var x := ListenAll(Session(s.redis.claims, map[]), actions, tx);
    var firsts := Listen(x, last, tx).firsts;
    var stream := NextAll(START, ingest).stream;
    assert forall a <- actions :: a in actions + [last];
    assert last in actions + [last];
    FirstsFromStream(stream, Session(s.redis.claims, map[]), actions, tx);
    StreamingEqualsBatch(cfg, s, actions, last, tx);
    forall src <- firsts ensures Validated(firsts[src]) { StreamIsValidated(ingest, firsts[src]); }
    ValidatedBalance(Batch(tx, firsts));
  }
}
