/** How a window begins, what keeps while it is open, and what each event adds. */
module Sessions {
  import opened Wrappers
  import opened Model
  import opened Store
  import opened Matcher
  import opened Cells
  import opened Coherence
  import opened Streaming

  // ----- First seen and deadline, whatever fails -----

  predicate Spans(w: Window, firstSeen: int, deadline: int) {
    w.firstSeen == firstSeen && w.deadline == deadline
  }

  lemma {:induction false} SpanKept(c: Cell, ops: seq<Op>, firstSeen: int, deadline: int)
    requires forall op <- ops :: op.SetWindow? ==> Spans(op.window, firstSeen, deadline)
    requires c.window.Some? ==> Spans(c.window.value, firstSeen, deadline)
    ensures CellApply(c, ops).window.Some? ==> Spans(CellApply(c, ops).window.value, firstSeen, deadline)
    decreases |ops|
  {
    if ops == [] {
    } else {
      assert ops[0] in ops;
      SpanKept(CellOp(c, ops[0]), ops[1..], firstSeen, deadline);
    }
  }

  lemma {:induction false} NoneOpened(c: Cell, ops: seq<Op>)
    requires c.window.None? && forall op <- ops :: !op.SetWindow?
    ensures CellApply(c, ops).window.None?
    decreases |ops|
  {
    if ops == [] {
    } else {
      assert ops[0] in ops;
      NoneOpened(CellOp(c, ops[0]), ops[1..]);
    }
  }

  predicate StartsRight(cfg: Config, open: Option<Window>, d: Delivery, w: Window) {
    if open.Some? then Spans(w, open.value.firstSeen, open.value.deadline)
    else Spans(w, d.env.now, d.env.now + cfg.timeoutMs)
  }

  /** An event only writes windows that begin when the open one did, or now. */
  lemma EventWindows(cfg: Config, claimed: bool, registered: bool, open: Option<Window>, d: Delivery)
    ensures forall op <- EventOps(cfg, claimed, registered, open, d) :: op.SetWindow? ==>
              StartsRight(cfg, open, d, op.window)
  {
    hide FinalizeOps, PersistIncidentOps, IsComplete, StartsRight;
    FinalizeOpensNone(cfg, Timed(Extended(cfg, open, d), d.env.elapsed), d.env);
    IncidentOnly(cfg, DuplicateIncident(d.event), d.env.now);
    JoinedStartsRight(cfg, open, d);
  }

  lemma JoinedStartsRight(cfg: Config, open: Option<Window>, d: Delivery)
    ensures StartsRight(cfg, open, d, Joined(cfg, open, d)) && StartsRight(cfg, open, d, Extended(cfg, open, d))
    ensures StartsRight(cfg, open, d, Timed(Extended(cfg, open, d), d.env.elapsed))
  {}

  lemma FinalizeOpensNone(cfg: Config, w: Window, env: Env)
    ensures forall op <- FinalizeOps(cfg, w, env) :: !op.SetWindow?
  {
    hide DetailOps, VerdictOps, FinalRow, BuildDetails;
    DetailShape(w.tx, BuildDetails(w));
    VerdictShape(cfg, w, env);
  }

  lemma IncidentOnly(cfg: Config, i: Incident, now: int)
    ensures forall op <- PersistIncidentOps(cfg, i, now) :: op.CreateIncident? || op.AddEscalation? || op.Publish?
  {}

  lemma TimeoutOpensNone(cfg: Config, tx: TxId, open: Option<Window>, env: Env)
    ensures forall op <- TimeoutOps(cfg, tx, open, env) :: !op.SetWindow?
  {
    hide DetailOps, VerdictOps, PersistIncidentOps, IsComplete, FinalRow, DegradedRow, BuildDetails, MissingIncident;
    if open.Some? {
      var w := open.value;
      DetailShape(w.tx, BuildDetails(w));
      DetailShape(tx, BuildDetails(w));
      VerdictShape(cfg, w, env);
      IncidentOnly(cfg, MissingIncident(tx, w), env.now);
    }
  }

  lemma PerformedWithin(ops: seq<Op>, stop: Option<nat>)
    ensures forall op <- Performed(ops, stop) :: op in ops
  {}

  /** Whatever fails: only an event opens a window, and the window begins when the event arrives and
      is due the configured timeout later. No step changes either while the window stays open. */
  lemma CellSpan(cfg: Config, c: Cell, claimed: bool, a: Action)
    ensures var x := CellStep(cfg, c, claimed, a);
            && (c.window.None? && x.window.Some? ==>
                  a.Deliver? && Spans(x.window.value, a.d.env.now, a.d.env.now + cfg.timeoutMs))
            && (c.window.Some? && x.window.Some? ==>
                  Spans(x.window.value, c.window.value.firstSeen, c.window.value.deadline))
  {
    hide CellApply, EventOps, TimeoutOps, Performed, Spans;
    match a
    case Deliver(d, stop) =>
      var ops := EventOps(cfg, claimed, Repeats(c, d.event), c.window, d);
      EventWindows(cfg, claimed, Repeats(c, d.event), c.window, d);
      PerformedWithin(ops, stop);
      var first, due := if c.window.Some? then c.window.value.firstSeen else d.env.now,
                        if c.window.Some? then c.window.value.deadline else d.env.now + cfg.timeoutMs;
      if c.window.Some? { SpansItself(c.window.value); }
      SpanKept(c, Performed(ops, stop), first, due);
    case Timeout(tx, env, stop) =>
      var c0 := c.(popped := if c.popped > 0 then c.popped - 1 else 0);
      var ops := TimeoutOps(cfg, tx, c.window, env);
      TimeoutOpensNone(cfg, tx, c.window, env);
      PerformedWithin(ops, stop);
      if c.window.Some? {
        SpansItself(c.window.value);
        SpanKept(c0, Performed(ops, stop), c.window.value.firstSeen, c.window.value.deadline);
      } else {
        NoneOpened(c0, Performed(ops, stop));
      }
    case _ => if c.window.Some? { SpansItself(c.window.value); }
  }

  lemma SpansItself(w: Window)
    ensures Spans(w, w.firstSeen, w.deadline)
  {}

  lemma StepSpan(cfg: Config, s: State, a: Action, tx: TxId)
    requires Keyed(s)
    ensures var t := Step(cfg, s, a);
            && (tx !in s.windows && tx in t.windows ==>
                  && a.Deliver? && a.d.event.tx == tx
                  && t.windows[tx].firstSeen == a.d.env.now
                  && t.windows[tx].deadline == a.d.env.now + cfg.timeoutMs)
            && (tx in s.windows && tx in t.windows ==>
                  && t.windows[tx].firstSeen == s.windows[tx].firstSeen
                  && t.windows[tx].deadline == s.windows[tx].deadline)
  {
    hide Step, CellOf, CellStep;
    StepOnCell(cfg, s, a, tx);
    CellWindows(s, tx);
    CellWindows(Step(cfg, s, a), tx);
    CellSpan(cfg, CellOf(s, tx), AlreadyClaimed(s, a), a);
  }

  /** Step `i` of the run is an event that opened the window which is still open at the end. */
  ghost predicate OpenedBy(cfg: Config, actions: seq<Action>, tx: TxId, i: nat) {
    && i < |actions| && actions[i].Deliver? && actions[i].d.event.tx == tx
    && tx !in Run(cfg, INIT, actions[..i]).windows
    && forall j | i < j <= |actions| :: tx in Run(cfg, INIT, actions[..j]).windows
  }

  lemma StillOpened(cfg: Config, front: seq<Action>, a: Action, tx: TxId, i: nat)
    requires OpenedBy(cfg, front, tx, i) && tx in Run(cfg, INIT, front + [a]).windows
    ensures OpenedBy(cfg, front + [a], tx, i)
  {
    hide Run;
    var actions, n := front + [a], |front|;
    assert forall j | 0 <= j <= n :: front[..j] == actions[..j];
    assert actions[..n + 1] == actions;
    forall j | i < j <= n + 1 ensures tx in Run(cfg, INIT, actions[..j]).windows {
      if j <= n { assert tx in Run(cfg, INIT, front[..j]).windows; }
    }
  }

  lemma JustOpened(cfg: Config, front: seq<Action>, a: Action, tx: TxId)
    requires a.Deliver? && a.d.event.tx == tx
    requires tx !in Run(cfg, INIT, front).windows && tx in Run(cfg, INIT, front + [a]).windows
    ensures OpenedBy(cfg, front + [a], tx, |front|)
  {
    hide Run;
    var actions, n := front + [a], |front|;
    assert actions[..n] == front && actions[..n + 1] == actions;
  }

  lemma NothingOpenAtFirst(cfg: Config)
    ensures Run(cfg, INIT, []).windows == map[]
  {}

  /** In every run, with any failures: an open window was first seen at the arrival of the event that
      opened it, and is due the configured timeout after that. */
  lemma {:induction false} OpenSinceArrival(cfg: Config, actions: seq<Action>, tx: TxId) returns (i: nat)
    requires tx in Run(cfg, INIT, actions).windows
    ensures OpenedBy(cfg, actions, tx, i)
    ensures var w, arrived := Run(cfg, INIT, actions).windows[tx], actions[i].d.env.now;
            w.firstSeen == arrived && w.deadline == arrived + cfg.timeoutMs
    decreases |actions|
  {
    hide Step, Run, OpenedBy;
    NothingOpenAtFirst(cfg);
    var n := |actions| - 1;
    var front, a := actions[..n], actions[n];
    assert actions == front + [a];
    RunSnoc(cfg, INIT, front, a);
    RunIsKeyed(cfg, INIT, front);
    StepSpan(cfg, Run(cfg, INIT, front), a, tx);
    if tx in Run(cfg, INIT, front).windows {
      i := OpenSinceArrival(cfg, front, tx);
      assert i < n by { OpenedInside(cfg, front, tx, i); }
      StillOpened(cfg, front, a, tx, i);
    } else {
      i := n;
      JustOpened(cfg, front, a, tx);
    }
  }

  lemma OpenedInside(cfg: Config, actions: seq<Action>, tx: TxId, i: nat)
    requires OpenedBy(cfg, actions, tx, i)
    ensures i < |actions| && actions[i].Deliver?
  {}

  lemma {:induction false} RunIsKeyed(cfg: Config, s: State, actions: seq<Action>)
    requires Keyed(s)
    ensures Keyed(Run(cfg, s, actions))
    decreases |actions|
  {
    hide Step;
    if actions == [] {
    } else {
      StepKeepsKeyed(cfg, s, actions[0]);
      RunIsKeyed(cfg, Step(cfg, s, actions[0]), actions[1..]);
    }
  }

  // ----- What an event adds, without failures -----

  /** An event that starts or continues a window adds itself to it, to the set of sources and to the
      checkpoint, and reports nothing. Its deadline is queued when the window opens. */
  lemma ProgressOnly(cfg: Config, s: State, d: Delivery)
    requires Inv(cfg, s) && Clean(Deliver(d, None)) && d.event.eventId !in s.redis.claims
    requires !Registered(s, d.event) && d.event.tx in Step(cfg, s, Deliver(d, None)).windows
    ensures var tx := d.event.tx;
            var before, after := CellOf(s, tx), CellOf(Step(cfg, s, Deliver(d, None)), tx);
            && after.row == before.row && after.details == before.details && after.incidents == before.incidents
            && after.popped == before.popped
            && after.window.Some? && after.checkpoint == after.window
            && after.window.value.events ==
                 (if before.window.Some? then before.window.value.events else map[])[d.event.source := d.event]
            && after.sources == Some(after.window.value.events.Keys)
            && after.deadline ==
                 (if before.window.Some? then before.deadline else Some(d.env.now + cfg.timeoutMs))
  {
    hide Step, CellOf, CellStep, Inv, Finalized;
    var tx, a := d.event.tx, Deliver(d, None);
    InvKeyed(cfg, s);
    CoherentTx(cfg, s, tx);
    StepOnCell(cfg, s, a, tx);
    CleanCellStep(cfg, CellOf(s, tx), false, a);
    CellWindows(Step(cfg, s, a), tx);
    RegisteredIs(s, d.event);
    ProgressCell(cfg, CellOf(s, tx), tx, d);
  }

  lemma RegisteredIs(s: State, e: PaymentEvent)
    ensures Repeats(CellOf(s, e.tx), e) == Registered(s, e)
  {}

  lemma ProgressCell(cfg: Config, c: Cell, tx: TxId, d: Delivery)
    requires Coherent(cfg, tx, c) && d.event.tx == tx && !Repeats(c, d.event)
    requires AfterEvent(cfg, c, d).window.Some?
    ensures var x := AfterEvent(cfg, c, d);
            && x.row == c.row && x.details == c.details && x.incidents == c.incidents && x.popped == c.popped
            && x.checkpoint == x.window
            && x.window.value.events ==
                 (if c.window.Some? then c.window.value.events else map[])[d.event.source := d.event]
            && x.sources == Some(x.window.value.events.Keys)
            && x.deadline == (if c.window.Some? then c.deadline else Some(d.env.now + cfg.timeoutMs))
            && x.window.value.micros == (if c.window.Some? then c.window.value.micros else 0) + d.env.elapsed
  {
    hide IsComplete, Finalized;
    var w := Extended(cfg, c.window, d);
    FinalCell(c, Timed(w, d.env.elapsed), d.env);
    assert w.events.Keys == OrEmpty(c.sources) + {d.event.source};
  }

  lemma FinalCell(c: Cell, w: Window, env: Env)
    ensures var x := Finalized(c, w, env);
            x.window.None? && x.row.Some? && x.row.value.micros == w.micros + env.finalizeElapsed
  {
    hide CheckInvariants, BuildDetails, PutAll;
  }

  /** A repeated source is reported once, by one incident that names it, and sets the row to pending;
      everything that belongs to the window stays. */
  lemma DuplicateOnly(cfg: Config, s: State, d: Delivery)
    requires Inv(cfg, s) && Clean(Deliver(d, None)) && d.event.eventId !in s.redis.claims && Registered(s, d.event)
    ensures var tx := d.event.tx;
            var before, after := CellOf(s, tx), CellOf(Step(cfg, s, Deliver(d, None)), tx);
            && after.window == before.window && after.checkpoint == before.checkpoint
            && after.sources == before.sources && after.deadline == before.deadline && after.popped == before.popped
            && after.details == before.details
            && after.row.Some? && after.row.value.status == Pending && after.row.value.micros == 0
            && |after.incidents| == |before.incidents| + 1 && before.incidents <= after.incidents
            && var i := after.incidents[|before.incidents|];
               i.tx == tx && i.kind == Duplicate && i.severity == 1 && i.named == [d.event.source]
  {
    hide Step, CellOf, CellStep, Inv;
    var tx, a := d.event.tx, Deliver(d, None);
    InvKeyed(cfg, s);
    StepOnCell(cfg, s, a, tx);
    CleanCellStep(cfg, CellOf(s, tx), false, a);
    RegisteredIs(s, d.event);
    DuplicateCell(cfg, CellOf(s, tx), d);
  }

  lemma DuplicateCell(cfg: Config, c: Cell, d: Delivery)
    requires Repeats(c, d.event)
    ensures AfterEvent(cfg, c, d) == Duplicated(c, d.event)
  {
    assert OrEmpty(c.sources) + {d.event.source} == OrEmpty(c.sources);
    assert c.sources.Some?;
  }

  // ----- Processing time -----

  function Added(x: Session, a: Action, tx: TxId): int {
    if a.Deliver? && Listen(x, a, tx).firsts != x.firsts then a.d.env.elapsed else 0
  }

  /** The time that the events of a session have taken, of those that were a source's first. */
  function Spent(x: Session, actions: seq<Action>, tx: TxId): int
    decreases |actions|
  {
    if actions == [] then 0
    else
      var a := actions[0];
      Added(x, a, tx) + Spent(Listen(x, a, tx), actions[1..], tx)
  }

  predicate TimeIs(open: Option<Window>, spent: int) {
    match open case None => spent == 0 case Some(w) => w.micros == spent
  }

  lemma TimeStep(cfg: Config, s: State, a: Action, tx: TxId, x: Session, spent: int)
    requires Inv(cfg, s) && Clean(a) && Follows(s, tx, x) && !(a.Timeout? && a.tx == tx)
    requires !Full(Listen(x, a, tx).firsts) && TimeIs(Lookup(s.windows, tx), spent)
    ensures TimeIs(Lookup(Step(cfg, s, a).windows, tx),
                   spent + Added(x, a, tx))
  {
    hide CellOf, Step, CellStep, Inv, Finalized, Coherent;
    InvKeyed(cfg, s);
    CoherentTx(cfg, s, tx);
    StepOnCell(cfg, s, a, tx);
    CellWindows(s, tx);
    CellWindows(Step(cfg, s, a), tx);
    var c := CellOf(s, tx);
    CleanCellStep(cfg, c, AlreadyClaimed(s, a), a);
    if a.Deliver? && a.d.event.tx == tx && !AlreadyClaimed(s, a) {
      DeliveryTracked(cfg, c, tx, a.d, x.firsts);
      if Repeats(c, a.d.event) {
        DuplicateCell(cfg, c, a.d);
      } else {
        NotCompleteYet(cfg, c, a.d, Listen(x, a, tx).firsts);
        assert a.d.event.source !in x.firsts && a.d.event.source in Listen(x, a, tx).firsts;
      }
    }
  }

  lemma NotCompleteYet(cfg: Config, c: Cell, d: Delivery, firsts: map<Source, PaymentEvent>)
    requires !Repeats(c, d.event) && Extended(cfg, c.window, d).events == firsts && !Full(firsts)
    ensures var x := AfterEvent(cfg, c, d);
            && x.window.Some?
            && x.window.value.micros == (if c.window.Some? then c.window.value.micros else 0) + d.env.elapsed
  {
    hide Finalized;
  }

  lemma {:induction false} TimeRun(
      cfg: Config, s: State, actions: seq<Action>, tx: TxId, x: Session, spent: int)
    requires Inv(cfg, s) && AllClean(actions) && Follows(s, tx, x) && NotTimedOut(actions, tx)
    requires !Full(ListenAll(x, actions, tx).firsts) && TimeIs(Lookup(s.windows, tx), spent)
    ensures TimeIs(Lookup(Run(cfg, s, actions).windows, tx), spent + Spent(x, actions, tx))
    decreases |actions|
  {
    hide Inv, Step, Follows, Listen, TimeIs;
    if actions == [] {
    } else {
      var a := actions[0];
      assert a in actions;
      FirstsGrow(Listen(x, a, tx), actions[1..], tx);
      ListenStep(cfg, s, a, tx, x);
      StepKeepsInv(cfg, s, a);
      TimeStep(cfg, s, a, tx, x, spent);
      TimeRun(cfg, Step(cfg, s, a), actions[1..], tx, Listen(x, a, tx),
              spent + Added(x, a, tx));
    }
  }

  /** The time in the row of a completed window is that of the three first events, and that of the
      verdict itself. */
  lemma RowHoldsTheTime(cfg: Config, s: State, actions: seq<Action>, last: Action, tx: TxId)
    requires Inv(cfg, s) && tx !in s.windows
    requires AllClean(actions) && Clean(last) && last.Deliver? && NotTimedOut(actions, tx)
    requires !Full(ListenAll(Session(s.redis.claims, map[]), actions, tx).firsts)
    requires Full(Listen(ListenAll(Session(s.redis.claims, map[]), actions, tx), last, tx).firsts)
    ensures var after := CellOf(Step(cfg, Run(cfg, s, actions), last), tx);
            && after.row.Some?
            && after.row.value.micros ==
                 Spent(Session(s.redis.claims, map[]), actions, tx) + last.d.env.elapsed + last.d.env.finalizeElapsed
  {
    hide Inv, CellOf, Step, CellStep, Coherent, Finalized;
    var x0 := Session(s.redis.claims, map[]);
    FollowsAtOpen(s, tx);
    SessionFollows(cfg, s, actions, tx, x0);
    TimeRun(cfg, s, actions, tx, x0, 0);
    RunKeepsInv(cfg, s, actions);
    var t, x := Run(cfg, s, actions), ListenAll(x0, actions, tx);
    InvKeyed(cfg, t);
    CoherentTx(cfg, t, tx);
    StepOnCell(cfg, t, last, tx);
    CellWindows(t, tx);
    CleanCellStep(cfg, CellOf(t, tx), AlreadyClaimed(t, last), last);
    DeliveryTracked(cfg, CellOf(t, tx), tx, last.d, x.firsts);
    CompletingCell(cfg, CellOf(t, tx), last.d);
  }

  lemma CompletingCell(cfg: Config, c: Cell, d: Delivery)
    requires !Repeats(c, d.event) && Full(Extended(cfg, c.window, d).events)
    ensures var x := AfterEvent(cfg, c, d);
            && x.row.Some?
            && x.row.value.micros ==
                 (if c.window.Some? then c.window.value.micros else 0) + d.env.elapsed + d.env.finalizeElapsed
  {
    hide Finalized;
    FinalCell(c, Timed(Extended(cfg, c.window, d), d.env.elapsed), d.env);
  }

  /** A degraded window's row holds no time. */
  lemma DegradedHoldsNone(cfg: Config, s: State, tx: TxId, env: Env)
    requires Inv(cfg, s) && tx in s.windows && tx in s.popped && Clean(Timeout(tx, env, None))
    ensures var after := CellOf(Step(cfg, s, Timeout(tx, env, None)), tx);
            after.row.Some? && after.row.value.micros == 0
  {
    hide CellOf, Step, CellStep, Inv, Coherent, PutAll, BuildDetails, IsComplete;
    CoherentTx(cfg, s, tx);
    InvKeyed(cfg, s);
    StepOnCell(cfg, s, Timeout(tx, env, None), tx);
    CleanCellStep(cfg, CellOf(s, tx), false, Timeout(tx, env, None));
    PoppedCount(s, tx);
  }
}
