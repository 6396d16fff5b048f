/** Streaming equals batch: what a session reports when its third source arrives is the verdict
    on the three first events, whatever else happened in between and in whatever order. */
module Streaming {
  import opened Wrappers
  import opened Model
  import opened Store
  import opened Matcher
  import opened Cells
  import opened Coherence

  /** What a listener who sees only the deliveries knows about one session of one transaction:
      the event ids delivered so far and the first event of each source. */
  datatype Session = Session(heard: set<EventId>, firsts: map<Source, PaymentEvent>)

  function Listen(x: Session, a: Action, tx: TxId): Session {
    if !a.Deliver? || a.d.event.eventId in x.heard then x
    else
      var e := a.d.event;
      Session(x.heard + {e.eventId},
              if e.tx == tx && e.source !in x.firsts then x.firsts[e.source := e] else x.firsts)
  }

  function ListenAll(x: Session, actions: seq<Action>, tx: TxId): Session
    decreases |actions|
  {
    if actions == [] then x else ListenAll(Listen(x, actions[0], tx), actions[1..], tx)
  }

  predicate Full(firsts: map<Source, PaymentEvent>) {
    |firsts| >= EXPECTED_SOURCES
  }

  ghost predicate NotTimedOut(actions: seq<Action>, tx: TxId) {
    forall a <- actions :: !(a.Timeout? && a.tx == tx)
  }

  predicate Tracks(c: Cell, firsts: map<Source, PaymentEvent>) {
    match c.window
    case None => firsts == map[]
    case Some(w) => firsts == w.events
  }

  predicate Follows(s: State, tx: TxId, x: Session) {
    x.heard == s.redis.claims && Tracks(CellOf(s, tx), x.firsts)
  }

  lemma {:induction false} FirstsGrow(x: Session, actions: seq<Action>, tx: TxId)
    ensures |x.firsts| <= |ListenAll(x, actions, tx).firsts|
    decreases |actions|
  {
    if actions == [] {
    } else {
      FirstsGrow(Listen(x, actions[0], tx), actions[1..], tx);
      ListenGrows(x, actions[0], tx);
    }
  }

  lemma ListenGrows(x: Session, a: Action, tx: TxId)
    ensures |x.firsts| <= |Listen(x, a, tx).firsts|
  {
    var y := Listen(x, a, tx);
    if y.firsts != x.firsts {
      assert y.firsts.Keys == x.firsts.Keys + {a.d.event.source};
    }
  }

  lemma ListenStep(cfg: Config, s: State, a: Action, tx: TxId, x: Session)
    requires Inv(cfg, s) && Clean(a) && Follows(s, tx, x) && !(a.Timeout? && a.tx == tx)
    requires !Full(Listen(x, a, tx).firsts)
    ensures Follows(Step(cfg, s, a), tx, Listen(x, a, tx))
  {
    hide CellOf, Step, CellStep, Inv, Finalized, Coherent;
    InvKeyed(cfg, s);
    CoherentTx(cfg, s, tx);
    StepOnCell(cfg, s, a, tx);
    var c := CellOf(s, tx);
    CleanCellStep(cfg, c, AlreadyClaimed(s, a), a);
    if a.Deliver? && a.d.event.tx == tx && !AlreadyClaimed(s, a) {
      DeliveryTracked(cfg, c, tx, a.d, x.firsts);
    }
  }

  lemma DeliveryTracked(cfg: Config, c: Cell, tx: TxId, d: Delivery, firsts: map<Source, PaymentEvent>)
    requires Coherent(cfg, tx, c) && Tracks(c, firsts)
    ensures Repeats(c, d.event) <==> d.event.source in firsts
    ensures !Repeats(c, d.event) ==> Extended(cfg, c.window, d).events == firsts[d.event.source := d.event]
    ensures Repeats(c, d.event) ==> Tracks(AfterEvent(cfg, c, d), firsts)
    ensures !Repeats(c, d.event) && !Full(firsts[d.event.source := d.event]) ==>
              Tracks(AfterEvent(cfg, c, d), firsts[d.event.source := d.event])
  {
    hide Finalized, WellKeyed;
  }

  lemma {:induction false} SessionFollows(cfg: Config, s: State, actions: seq<Action>, tx: TxId, x: Session)
    requires Inv(cfg, s) && AllClean(actions) && Follows(s, tx, x) && NotTimedOut(actions, tx)
    requires !Full(ListenAll(x, actions, tx).firsts)
    ensures Follows(Run(cfg, s, actions), tx, ListenAll(x, actions, tx))
    decreases |actions|
  {
    hide Inv, Step, Follows, Listen;
    if actions == [] {
    } else {
      var a := actions[0];
      assert a in actions;
      FirstsGrow(Listen(x, a, tx), actions[1..], tx);
      ListenStep(cfg, s, a, tx, x);
      StepKeepsInv(cfg, s, a);
      SessionFollows(cfg, Step(cfg, s, a), actions[1..], tx, Listen(x, a, tx));
    }
  }

  function StatusOf(verdict: Verdict): OverallStatus {
    if verdict.Matched? then MatchedStatus else MismatchStatus
  }

  function Batch(tx: TxId, firsts: map<Source, PaymentEvent>): Window {
    Window(tx, firsts, 0, 0, 0)
  }

  /** The rows of a batch reconciliation, by source. */
  function RowsBySource(w: Window): map<Source, Detail> {
    PutAll(map[], BuildDetails(w))
  }

  lemma ThreeRows(rows: map<Source, Detail>, w: Window)
    requires IsComplete(w)
    ensures PutAll(rows, BuildDetails(w)) == RowsBySource(w)
    ensures RowsBySource(w).Keys == {Merchant, Gateway, Bank}
    ensures forall row <- BuildDetails(w) :: RowsBySource(w)[row.source] == row
  {
    CheckersAgree(w);
    var ds := BuildDetails(w);
    var m, g, b := ds[0], ds[1], ds[2];
    assert ds == [m, g, b] && ds[1..] == [g, b] && ds[1..][1..] == [b];
    PutThree(rows, m, g, b);
    PutThree(map[], m, g, b);
    forall src | src in rows ensures src in {Merchant, Gateway, Bank} {
      match src case Merchant => case Gateway => case Bank =>
    }
  }

  lemma PutThree(rows: map<Source, Detail>, m: Detail, g: Detail, b: Detail)
    ensures PutAll(rows, [m, g, b]) == rows[m.source := m][g.source := g][b.source := b]
  {
    assert [m, g, b][1..] == [g, b] && [g, b][1..] == [b] && [b][1..] == [];
    var r1 := rows[m.source := m];
    var r2 := r1[g.source := g];
    assert PutAll(r2, [b]) == PutAll(r2[b.source := b], []);
    assert PutAll(r1, [g, b]) == PutAll(r2, [b]);
  }

  /** The report that `before` turns into when the three first events are reconciled at once. */
  ghost predicate ReportedInBatch(before: Cell, after: Cell, tx: TxId, firsts: map<Source, PaymentEvent>) {
    var w := Batch(tx, firsts);
    && after.window.None? && after.sources.None? && after.checkpoint.None? && after.deadline.None?
    && after.row.Some? && after.row.value.status == StatusOf(CheckInvariants(w))
    && after.details == RowsBySource(w)
    && after.incidents == before.incidents + IncidentsIn(CheckInvariants(w))
  }

  /** While a session of `tx` is open, let each of the three sources deliver a first event, in
      any order, mixed with repetitions, redeliveries and everything else that happens in the
      engine. Then the step that delivers the third one reports exactly what a batch
      reconciliation of those three first events reports. */
  lemma StreamingEqualsBatch(cfg: Config, s: State, actions: seq<Action>, last: Action, tx: TxId)
    requires Inv(cfg, s) && tx !in s.windows
    requires AllClean(actions) && Clean(last) && last.Deliver? && NotTimedOut(actions, tx)
    requires !Full(ListenAll(Session(s.redis.claims, map[]), actions, tx).firsts)
    requires Full(Listen(ListenAll(Session(s.redis.claims, map[]), actions, tx), last, tx).firsts)
    ensures var x := Listen(ListenAll(Session(s.redis.claims, map[]), actions, tx), last, tx);
            var before := Run(cfg, s, actions);
            ReportedInBatch(CellOf(before, tx), CellOf(Step(cfg, before, last), tx), tx, x.firsts)
  {
    hide Inv, CellOf, Step, CellStep, Coherent;
    var x0 := Session(s.redis.claims, map[]);
    CellWindows(s, tx);
    SessionFollows(cfg, s, actions, tx, x0);
    RunKeepsInv(cfg, s, actions);
    var t, x := Run(cfg, s, actions), ListenAll(x0, actions, tx);
    InvKeyed(cfg, t);
    CoherentTx(cfg, t, tx);
    StepOnCell(cfg, t, last, tx);
    CleanCellStep(cfg, CellOf(t, tx), AlreadyClaimed(t, last), last);
    ThirdSource(cfg, CellOf(t, tx), tx, last.d, x.firsts);
  }

  lemma ThirdSource(cfg: Config, c: Cell, tx: TxId, d: Delivery, firsts: map<Source, PaymentEvent>)
    requires Coherent(cfg, tx, c) && Tracks(c, firsts) && d.event.tx == tx && d.event.source !in firsts
    requires Full(firsts[d.event.source := d.event])
    ensures ReportedInBatch(c, AfterEvent(cfg, c, d), tx, firsts[d.event.source := d.event])
  {
    hide BuildDetails, CheckInvariants, PutAll;
    DeliveryTracked(cfg, c, tx, d, firsts);
    var w := Timed(Extended(cfg, c.window, d), d.env.elapsed);
    var batch := Batch(tx, firsts[d.event.source := d.event]);
    SameEventsSameVerdict(w, batch);
    ThreeRows(c.details, w);
    ThreeRows(map[], batch);
  }

  lemma SameEventsSameVerdict(w: Window, v: Window)
    requires w.tx == v.tx && w.events == v.events
    ensures CheckInvariants(w) == CheckInvariants(v) && BuildDetails(w) == BuildDetails(v)
  {}

  /** Two sessions with the same first events report the same, in whatever order and company
      those events arrived. */
  lemma OrderDoesNotMatter(
      cfg: Config, s: State, actions: seq<Action>, last: Action,
      s': State, actions': seq<Action>, last': Action, tx: TxId)
    requires Inv(cfg, s) && tx !in s.windows && Inv(cfg, s') && tx !in s'.windows
    requires AllClean(actions) && Clean(last) && last.Deliver? && NotTimedOut(actions, tx)
    requires AllClean(actions') && Clean(last') && last'.Deliver? && NotTimedOut(actions', tx)
    requires var x := ListenAll(Session(s.redis.claims, map[]), actions, tx);
             var x' := ListenAll(Session(s'.redis.claims, map[]), actions', tx);
             && !Full(x.firsts) && !Full(x'.firsts) && Full(Listen(x, last, tx).firsts)
             && Listen(x, last, tx).firsts == Listen(x', last', tx).firsts
    ensures var t, t' := Run(cfg, s, actions), Run(cfg, s', actions');
            var c, c' := CellOf(Step(cfg, t, last), tx), CellOf(Step(cfg, t', last'), tx);
            && c.row.Some? && c'.row.Some? && c.row.value.status == c'.row.value.status
            && c.details == c'.details
            && exists found :: c.incidents == CellOf(t, tx).incidents + found
                               && c'.incidents == CellOf(t', tx).incidents + found
  {
    hide Inv, CellOf, Step, CheckInvariants, RowsBySource;
    StreamingEqualsBatch(cfg, s, actions, last, tx);
    StreamingEqualsBatch(cfg, s', actions', last', tx);
    ghost var firsts := Listen(ListenAll(Session(s.redis.claims, map[]), actions, tx), last, tx).firsts;
    ghost var found := IncidentsIn(CheckInvariants(Batch(tx, firsts)));
    assert CellOf(Step(cfg, Run(cfg, s, actions), last), tx).incidents ==
           CellOf(Run(cfg, s, actions), tx).incidents + found;
  }

  // ----- Any order of the three events -----

  function Deliveries(events: seq<(PaymentEvent, Env)>): seq<Action> {
    seq(|events|, i requires 0 <= i < |events| => Deliver(Delivery(events[i].0, events[i].1), None))
  }

  /** The hypotheses of StreamingEqualsBatch hold for every order of three fresh events of the
      three sources, so all six orders report the same batch verdict. */
  lemma EveryOrderReportsTheBatch(
      cfg: Config, s: State, m: PaymentEvent, g: PaymentEvent, b: PaymentEvent,
      order: seq<(PaymentEvent, Env)>, tx: TxId)
    requires Inv(cfg, s) && tx !in s.windows
    requires m.tx == g.tx == b.tx == tx && m.source == Merchant && g.source == Gateway && b.source == Bank
    requires m.eventId != g.eventId && g.eventId != b.eventId && m.eventId != b.eventId
    requires m.eventId !in s.redis.claims && g.eventId !in s.redis.claims && b.eventId !in s.redis.claims
    requires |order| == 3 && {order[0].0, order[1].0, order[2].0} == {m, g, b}
    requires forall x <- order :: x.1.processedUp && x.1.matchUp
    ensures ReportedInBatch(CellOf(s, tx), CellOf(Run(cfg, s, Deliveries(order)), tx), tx,
                            map[Merchant := m, Gateway := g, Bank := b])
  {
    hide Inv, CellOf, Step, ReportedInBatch, Deliveries, Listen, Run, Clean, Follows, Full;
    var x, y, z := order[0].0, order[1].0, order[2].0;
    var a, b', c := Arrival(order[0]), Arrival(order[1]), Arrival(order[2]);
    assert order[0] in order && order[1] in order && order[2] in order;
    DeliveriesOfThree(order);
    var x0 := Session(s.redis.claims, map[]);
    ThreeDistinct(m, g, b, x, y, z);
    ListenThree(x0, x, order[0].1, y, order[1].1, z, order[2].1, tx);
    var x1 := Listen(x0, a, tx);
    var x2 := Listen(x1, b', tx);
    ListenTwo(x0, a, b', tx);
    CellWindows(s, tx);
    assert Follows(s, tx, x0) by { FollowsAtOpen(s, tx); }
    FirstArrival(cfg, s, a, tx, x0);
    FirstArrival(cfg, Step(cfg, s, a), b', tx, x1);
    assert NotTimedOut([a, b'], tx) && AllClean([a, b']);
    StreamingEqualsBatch(cfg, s, [a, b'], c, tx);
    assert [a, b', c] == [a, b'] + [c];
    RunSnoc(cfg, s, [a, b'], c);
    RunTwo(cfg, s, a, b');
    SameIncidents(CellOf(Run(cfg, s, [a, b']), tx), CellOf(s, tx), CellOf(Run(cfg, s, [a, b', c]), tx), tx,
                  Listen(x2, c, tx).firsts);
  }

  function Arrival(x: (PaymentEvent, Env)): (a: Action)
    ensures x.1.processedUp && x.1.matchUp ==> Clean(a)
  {
    Deliver(Delivery(x.0, x.1), None)
  }

  lemma DeliveriesOfThree(order: seq<(PaymentEvent, Env)>)
    requires |order| == 3
    ensures Deliveries(order) == [Arrival(order[0]), Arrival(order[1]), Arrival(order[2])]
  {}

  lemma FollowsAtOpen(s: State, tx: TxId)
    requires tx !in s.windows
    ensures Follows(s, tx, Session(s.redis.claims, map[]))
  {}

  lemma ListenThree(x0: Session, x: PaymentEvent, ex: Env, y: PaymentEvent, ey: Env, z: PaymentEvent, ez: Env, tx: TxId)
    requires x0.firsts == map[] && x.tx == y.tx == z.tx == tx
    requires x.eventId !in x0.heard && y.eventId !in x0.heard && z.eventId !in x0.heard
    requires x.eventId != y.eventId && y.eventId != z.eventId && x.eventId != z.eventId
    requires x.source != y.source && y.source != z.source && x.source != z.source
    ensures var x1 := Listen(x0, Arrival((x, ex)), tx);
            var x2 := Listen(x1, Arrival((y, ey)), tx);
            var x3 := Listen(x2, Arrival((z, ez)), tx);
            && !Full(x1.firsts) && !Full(x2.firsts) && Full(x3.firsts)
            && y.eventId !in x1.heard && y.source !in x1.firsts
            && x3.firsts == map[x.source := x, y.source := y, z.source := z]
  {
    var x1 := Listen(x0, Arrival((x, ex)), tx);
    var x2 := Listen(x1, Arrival((y, ey)), tx);
    var x3 := Listen(x2, Arrival((z, ez)), tx);
    assert x1.firsts.Keys == {x.source} && x2.firsts.Keys == {x.source, y.source};
    assert x3.firsts.Keys == {x.source, y.source, z.source};
    assert |x1.firsts.Keys| == |x1.firsts| && |x2.firsts.Keys| == |x2.firsts| && |x3.firsts.Keys| == |x3.firsts|;
  }

  lemma FirstArrival(cfg: Config, s: State, a: Action, tx: TxId, x: Session)
    requires Inv(cfg, s) && Clean(a) && Follows(s, tx, x)
    requires a.Deliver? && a.d.event.tx == tx && a.d.event.eventId !in x.heard && a.d.event.source !in x.firsts
    requires !Full(Listen(x, a, tx).firsts)
    ensures Inv(cfg, Step(cfg, s, a)) && Follows(Step(cfg, s, a), tx, Listen(x, a, tx))
    ensures CellOf(Step(cfg, s, a), tx).incidents == CellOf(s, tx).incidents
  {
    hide Inv, CellOf, Step, CellStep, Coherent, Finalized;
    InvKeyed(cfg, s);
    CoherentTx(cfg, s, tx);
    StepKeepsInv(cfg, s, a);
    ListenStep(cfg, s, a, tx, x);
    StepOnCell(cfg, s, a, tx);
    CleanCellStep(cfg, CellOf(s, tx), false, a);
    DeliveryTracked(cfg, CellOf(s, tx), tx, a.d, x.firsts);
  }

  lemma ListenTwo(x: Session, a: Action, b: Action, tx: TxId)
    ensures ListenAll(x, [a, b], tx) == Listen(Listen(x, a, tx), b, tx)
  {
    hide Listen;
    assert [a, b][1..] == [b] && [b][1..] == [];
    assert ListenAll(Listen(x, a, tx), [b], tx) == ListenAll(Listen(Listen(x, a, tx), b, tx), [], tx);
  }

  lemma RunTwo(cfg: Config, s: State, a: Action, b: Action)
    ensures Run(cfg, s, [a, b]) == Step(cfg, Step(cfg, s, a), b)
  {
    hide Step;
    assert [a, b][1..] == [b] && [b][1..] == [];
    assert Run(cfg, Step(cfg, s, a), [b]) == Run(cfg, Step(cfg, Step(cfg, s, a), b), []);
  }

  lemma SameIncidents(before: Cell, other: Cell, after: Cell, tx: TxId, firsts: map<Source, PaymentEvent>)
    requires ReportedInBatch(before, after, tx, firsts) && other.incidents == before.incidents
    ensures ReportedInBatch(other, after, tx, firsts)
  {}

  lemma ThreeDistinct(m: PaymentEvent, g: PaymentEvent, b: PaymentEvent,
                      x: PaymentEvent, y: PaymentEvent, z: PaymentEvent)
    requires m.source == Merchant && g.source == Gateway && b.source == Bank
    requires {x, y, z} == {m, g, b} && m.eventId != g.eventId && g.eventId != b.eventId && m.eventId != b.eventId
    ensures x.eventId != y.eventId && y.eventId != z.eventId && x.eventId != z.eventId
    ensures x.source != y.source && y.source != z.source && x.source != z.source
    ensures x in {m, g, b} && y in {m, g, b} && z in {m, g, b}
    ensures map[x.source := x, y.source := y, z.source := z] == map[Merchant := m, Gateway := g, Bank := b]
  {
    assert x in {m, g, b} && y in {m, g, b} && z in {m, g, b};
    assert m in {x, y, z} && g in {x, y, z} && b in {x, y, z};
  }
}
