/** One pass of the timer over expired windows, interleaved with event handling. */
module Timer {
  import opened Wrappers
  import opened Model
  import opened Store
  import opened Matcher
  import opened Cells
  import opened Coherence

  /** The snapshot a pass takes: ZRANGEBYSCORE deadlines -inf now. */
  function Due(s: State, now: int): set<TxId> {
    set tx | tx in s.redis.deadlines && s.redis.deadlines[tx] <= now
  }

  /** Everything that runs during the pass reads the clock after the pass did. */
  ghost predicate NotBefore(actions: seq<Action>, now: int) {
    forall a <- actions :: a.Deliver? ==> a.d.env.now >= now
  }

  /** A window that was due when the pass started is handed to the pass, or will be. */
  predicate Awaited(c: Cell, now: int, pending: bool) {
    c.window.Some? && c.window.value.deadline <= now ==> c.popped > 0 || (pending && c.deadline.Some?)
  }

  lemma AwaitedStep(cfg: Config, tx: TxId, c: Cell, claimed: bool, a: Action, now: int, pending: bool)
    requires cfg.timeoutMs > 0 && Coherent(cfg, tx, c) && Clean(a) && Awaited(c, now, pending)
    requires ActionTx(a) == Some(tx) && (a.Deliver? ==> a.d.env.now >= now)
    ensures Awaited(CleanStep(cfg, c, claimed, a), now, pending)
    ensures a == PopDeadline(tx) ==> Awaited(CleanStep(cfg, c, claimed, a), now, false)
  {
    hide Finalized, IsComplete, WellKeyed;
    match a
    case Deliver(d, _) =>
      if !claimed && !Repeats(c, d.event) && IsComplete(Extended(cfg, c.window, d)) {
        ClosedCell(c, Timed(Extended(cfg, c.window, d), d.env.elapsed), d.env);
      }
    case Timeout(_, env, _) =>
      if c.popped > 0 && c.window.Some? { ClosedCell(c.(popped := c.popped - 1), c.window.value, env); }
    case _ =>
  }

  lemma ClosedCell(c: Cell, w: Window, env: Env)
    ensures Finalized(c, w, env).window.None?
  {}

  lemma {:induction false} AwaitedRun(
      cfg: Config, s: State, actions: seq<Action>, now: int, tx: TxId)
    requires cfg.timeoutMs > 0 && Inv(cfg, s) && AllClean(actions) && NotBefore(actions, now)
    requires Awaited(CellOf(s, tx), now, PopDeadline(tx) in actions)
    ensures Awaited(CellOf(Run(cfg, s, actions), tx), now, false)
    decreases |actions|
  {
    hide Inv, Step, CellOf, CellStep, CleanStep, Coherent, Awaited;
    if actions == [] {
    } else {
      var a := actions[0];
      assert a in actions && actions == [a] + actions[1..];
      InvKeyed(cfg, s);
      CoherentTx(cfg, s, tx);
      StepKeepsInv(cfg, s, a);
      StepOnCell(cfg, s, a, tx);
      var c, claimed := CellOf(s, tx), AlreadyClaimed(s, a);
      if ActionTx(a) == Some(tx) {
        CleanCellStep(cfg, c, claimed, a);
        AwaitedStep(cfg, tx, c, claimed, a, now, PopDeadline(tx) in actions);
        if a == PopDeadline(tx) {
          AwaitedWeaken(CleanStep(cfg, c, claimed, a), now, PopDeadline(tx) in actions[1..]);
        }
      }
      AwaitedRun(cfg, Step(cfg, s, a), actions[1..], now, tx);
    }
  }

  lemma AwaitedWeaken(c: Cell, now: int, pending: bool)
    requires Awaited(c, now, false)
    ensures Awaited(c, now, pending)
  {}

  /** Let a pass start at `now`: it pops every id of its snapshot and every popped id is handled
      before it returns, while event handling goes on in between, in any interleaving. When it
      returns, no open window has a deadline at or before `now`. */
  lemma PassLeavesNothingDue(cfg: Config, s: State, actions: seq<Action>, now: int)
    requires cfg.timeoutMs > 0 && Inv(cfg, s) && s.popped == multiset{}
    requires AllClean(actions) && NotBefore(actions, now)
    requires forall tx <- Due(s, now) :: PopDeadline(tx) in actions
    requires Run(cfg, s, actions).popped == multiset{}
    ensures forall tx <- Run(cfg, s, actions).windows :: Run(cfg, s, actions).windows[tx].deadline > now
  {
    hide Inv, Run, CellOf, Awaited, Due;
    var t := Run(cfg, s, actions);
    forall tx | tx in t.windows ensures t.windows[tx].deadline > now {
      AwaitedAtStart(cfg, s, now, tx, PopDeadline(tx) in actions);
      AwaitedRun(cfg, s, actions, now, tx);
      AwaitedAtEnd(t, now, tx);
    }
  }

  lemma AwaitedAtStart(cfg: Config, s: State, now: int, tx: TxId, pending: bool)
    requires Inv(cfg, s) && s.popped == multiset{} && (tx in Due(s, now) ==> pending)
    ensures Awaited(CellOf(s, tx), now, pending)
  {
    hide Inv, IncidentsOf, WellKeyed, IsComplete;
    CoherentTx(cfg, s, tx);
  }

  lemma AwaitedAtEnd(t: State, now: int, tx: TxId)
    requires tx in t.windows && t.popped == multiset{} && Awaited(CellOf(t, tx), now, false)
    ensures t.windows[tx].deadline > now
  {
    hide IncidentsOf;
  }
}
