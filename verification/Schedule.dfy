/** A timer whose passes are punctual keeps every open window young, so that expiry never shows. */
module Schedule {
  import opened Wrappers
  import opened Model
  import opened Store
  import opened Matcher
  import opened Cells
  import opened Coherence
  import opened Timer
  import opened Expiry

  /** The state after the first `k` steps. */
  function At(cfg: Config, steps: seq<TimedStep>, k: nat): State
    requires k <= |steps|
  {
    Run(cfg, INIT, Actions(steps[..k]))
  }

  /** The clock is monotone, every step reads it, no store command fails and redeliveries come
      inside the dedup window. */
  predicate Orderly(steps: seq<TimedStep>, claimedAt: map<EventId, int>, dedupMs: nat, last: int)
    decreases |steps|
  {
    steps == [] ||
    (var x := steps[0];
     && last <= x.at && OnTime(x) && Clean(x.action) && InDedupWindow(claimedAt, x, dedupMs)
     && Orderly(steps[1..], Claimed(claimedAt, x), dedupMs, x.at))
  }

  /** A timer pass that takes its snapshot at `start`, before step `p`, and has returned before
      step `q`: it pops every id of the snapshot and leaves no popped id unhandled. */
  ghost predicate Pass(cfg: Config, steps: seq<TimedStep>, p: nat, q: nat, start: int) {
    && p <= q <= |steps|
    && (forall i | 0 <= i < p :: steps[i].at <= start) && (forall i | p <= i < |steps| :: start <= steps[i].at)
    && At(cfg, steps, p).popped == multiset{} && At(cfg, steps, q).popped == multiset{}
    && forall tx <- Due(At(cfg, steps, p), start) :: PopDeadline(tx) in Actions(steps[p..q])
  }

  /** A pass starts at or after the deadline and has returned by `end`. */
  ghost predicate PassWithin(cfg: Config, steps: seq<TimedStep>, deadline: int, end: int) {
    exists p: nat, q: nat, start: int ::
      Pass(cfg, steps, p, q, start) && deadline <= start <= end && DoneBy(steps, q, end)
  }

  predicate DoneBy(steps: seq<TimedStep>, q: nat, end: int) {
    q <= |steps| && forall i | 0 <= i < q :: steps[i].at <= end
  }

  /** Within `slack` of the deadline of every window that was ever open, a pass starts and
      returns, as far as that lies before `now`. */
  ghost predicate Punctual(cfg: Config, steps: seq<TimedStep>, slack: nat, now: int) {
    forall k, tx | 0 <= k <= |steps| && tx in At(cfg, steps, k).windows ::
      var deadline := At(cfg, steps, k).windows[tx].deadline;
      deadline + slack < now ==> PassWithin(cfg, steps, deadline, deadline + slack)
  }

  // ----- Once a pass has cleared a time, it stays cleared -----

  predicate AheadCell(c: Cell, start: int) {
    c.window.Some? ==> c.window.value.deadline > start
  }

  ghost predicate Ahead(s: State, start: int) {
    forall tx <- s.windows :: s.windows[tx].deadline > start
  }

  lemma AheadStep(cfg: Config, tx: TxId, c: Cell, claimed: bool, a: Action, start: int)
    requires cfg.timeoutMs > 0 && Clean(a) && AheadCell(c, start)
    requires ActionTx(a) == Some(tx) && (a.Deliver? ==> a.d.env.now >= start)
    ensures AheadCell(CleanStep(cfg, c, claimed, a), start)
  {
    hide Finalized, IsComplete;
    match a
    case Deliver(d, _) => ClosedCell(c, Timed(Extended(cfg, c.window, d), d.env.elapsed), d.env);
    case Timeout(_, env, _) =>
      if c.popped > 0 && c.window.Some? { ClosedCell(c.(popped := c.popped - 1), c.window.value, env); }
    case _ =>
  }

  lemma {:induction false} AheadRun(cfg: Config, s: State, actions: seq<Action>, start: int)
    requires cfg.timeoutMs > 0 && Inv(cfg, s) && AllClean(actions) && NotBefore(actions, start) && Ahead(s, start)
    ensures Ahead(Run(cfg, s, actions), start)
    decreases |actions|
  {
    hide Inv, Step, CellOf, CellStep, CleanStep;
    if actions == [] {
    } else {
      var a, t := actions[0], Step(cfg, s, actions[0]);
      assert a in actions;
      InvKeyed(cfg, s);
      StepKeepsInv(cfg, s, a);
      forall tx <- t.windows ensures t.windows[tx].deadline > start {
        StepOnCell(cfg, s, a, tx);
        CellWindows(s, tx);
        CellWindows(t, tx);
        if ActionTx(a) == Some(tx) {
          CleanCellStep(cfg, CellOf(s, tx), AlreadyClaimed(s, a), a);
          AheadStep(cfg, tx, CellOf(s, tx), AlreadyClaimed(s, a), a, start);
        }
      }
      AheadRun(cfg, t, actions[1..], start);
    }
  }

  // ----- Runs in parts -----

  lemma {:induction false} ActionsConcat(a: seq<TimedStep>, b: seq<TimedStep>)
    ensures Actions(a + b) == Actions(a) + Actions(b)
    decreases |a|
  {
    if a == [] {
      assert a + b == b;
    } else {
      assert (a + b)[1..] == a[1..] + b;
      ActionsConcat(a[1..], b);
    }
  }

  lemma {:induction false} ActionsFrom(steps: seq<TimedStep>, a: Action)
    requires a in Actions(steps)
    ensures exists x <- steps :: x.action == a
    decreases |steps|
  {
    if steps[0].action == a {
      assert steps[0] in steps;
    } else {
      ActionsFrom(steps[1..], a);
    }
  }

  lemma {:induction false} OrderlySteps(steps: seq<TimedStep>, claimedAt: map<EventId, int>, dedupMs: nat, last: int)
    requires Orderly(steps, claimedAt, dedupMs, last)
    ensures forall x <- steps :: OnTime(x) && Clean(x.action) && last <= x.at <= LastAt(steps, last)
    ensures last <= LastAt(steps, last)
    decreases |steps|
  {
    hide InDedupWindow, Claimed, OnTime, Clean;
    if steps == [] {
    } else {
      OrderlySteps(steps[1..], Claimed(claimedAt, steps[0]), dedupMs, steps[0].at);
      forall x <- steps ensures OnTime(x) && Clean(x.action) && last <= x.at <= LastAt(steps, last) {
        if x != steps[0] { assert x in steps[1..]; }
      }
    }
  }

  lemma PartClean(steps: seq<TimedStep>, p: nat, q: nat, start: int)
    requires p <= q <= |steps| && forall x <- steps :: OnTime(x) && Clean(x.action)
    requires forall i | p <= i < |steps| :: start <= steps[i].at
    ensures AllClean(Actions(steps[p..q])) && NotBefore(Actions(steps[p..q]), start)
  {
    hide Clean;
    forall a <- Actions(steps[p..q]) ensures Clean(a) && (a.Deliver? ==> a.d.env.now >= start) {
      ActionsFrom(steps[p..q], a);
      var x :| x in steps[p..q] && x.action == a;
      assert x in steps;
      var i :| p <= i < q && steps[i] == x;
    }
  }

  lemma AtLater(cfg: Config, steps: seq<TimedStep>, p: nat, q: nat)
    requires p <= q <= |steps|
    ensures At(cfg, steps, q) == Run(cfg, At(cfg, steps, p), Actions(steps[p..q]))
  {
    hide Run;
    assert steps[..q] == steps[..p] + steps[p..q];
    ActionsConcat(steps[..p], steps[p..q]);
    RunConcat(cfg, INIT, Actions(steps[..p]), Actions(steps[p..q]));
  }

  lemma AtCoherent(cfg: Config, steps: seq<TimedStep>, k: nat)
    requires k <= |steps| && forall x <- steps :: OnTime(x) && Clean(x.action)
    ensures Inv(cfg, At(cfg, steps, k))
  {
    hide Inv, Run, Clean;
    forall a <- Actions(steps[..k]) ensures Clean(a) { ActionsFrom(steps[..k], a); }
    InitCoherent(cfg);
    RunKeepsInv(cfg, INIT, Actions(steps[..k]));
  }

  // ----- Punctual passes keep windows young -----

  /** After a pass, no window that was due when it started is open, at any later time. */
  lemma AfterPass(cfg: Config, steps: seq<TimedStep>, p: nat, q: nat, start: int, k: nat)
    requires cfg.timeoutMs > 0 && forall x <- steps :: OnTime(x) && Clean(x.action)
    requires Pass(cfg, steps, p, q, start) && q <= k <= |steps|
    ensures Ahead(At(cfg, steps, k), start)
  {
    hide Inv, Run, At, Actions, Due, AllClean, NotBefore;
    AtCoherent(cfg, steps, p);
    AtCoherent(cfg, steps, q);
    AtLater(cfg, steps, p, q);
    AtLater(cfg, steps, q, k);
    PartClean(steps, p, q, start);
    PartClean(steps, q, k, start);
    PassLeavesNothingDue(cfg, At(cfg, steps, p), Actions(steps[p..q]), start);
    AheadRun(cfg, At(cfg, steps, q), Actions(steps[q..k]), start);
  }

  /** So at every time, no open window is older than its deadline plus `slack`. */
  lemma PunctualMeansPrompt(cfg: Config, steps: seq<TimedStep>, slack: nat, now: int, k: nat, at: int)
    requires cfg.timeoutMs > 0 && forall x <- steps :: OnTime(x) && Clean(x.action)
    requires Punctual(cfg, steps, slack, now) && k <= |steps| && at <= now
    requires k < |steps| ==> at == steps[k].at
    ensures Prompt(At(cfg, steps, k), at, slack)
  {
    hide Run, At, Pass, OnTime, Clean;
    var s := At(cfg, steps, k);
    forall tx <- s.windows ensures at <= s.windows[tx].deadline + slack {
      var deadline := s.windows[tx].deadline;
      if deadline + slack < at {
        assert PassWithin(cfg, steps, deadline, deadline + slack);
        var p: nat, q: nat, start: int :|
          Pass(cfg, steps, p, q, start) && deadline <= start <= deadline + slack && DoneBy(steps, q, deadline + slack);
        AfterPass(cfg, steps, p, q, start, k);
      }
    }
  }

  lemma {:induction false} TimelyFrom(
      cfg: Config, steps: seq<TimedStep>, k: nat, claimedAt: map<EventId, int>, dedupMs: nat, last: int, slack: nat)
    requires k <= |steps| && Orderly(steps[k..], claimedAt, dedupMs, last)
    requires forall i | k <= i < |steps| :: Prompt(At(cfg, steps, i), steps[i].at, slack)
    ensures Timely(cfg, At(cfg, steps, k), steps[k..], claimedAt, dedupMs, last, slack)
    decreases |steps| - k
  {
    hide At, Step, Prompt, InDedupWindow, Claimed, OnTime, Clean;
    if k == |steps| {
    } else {
      var x := steps[k];
      assert steps[k..][0] == x && steps[k..][1..] == steps[k + 1..];
      AtNext(cfg, steps, k);
      TimelyFrom(cfg, steps, k + 1, Claimed(claimedAt, x), dedupMs, x.at, slack);
    }
  }

  lemma AtNext(cfg: Config, steps: seq<TimedStep>, k: nat)
    requires k < |steps|
    ensures At(cfg, steps, k + 1) == Step(cfg, At(cfg, steps, k), steps[k].action)
  {
    hide Step;
    AtLater(cfg, steps, k, k + 1);
    assert steps[k..k + 1] == [steps[k]];
    var t := At(cfg, steps, k);
    assert Actions([steps[k]]) == [steps[k].action];
    assert Run(cfg, t, [steps[k].action]) == Run(cfg, Step(cfg, t, steps[k].action), []);
  }

  /** Expiry never shows: if within `slack` of every deadline a timer pass starts and returns, and
      timeout + slack is less than the checkpoint's time-to-live, then at every time `now` what
      is left of the expiring store is the store without expiry, save for claims whose dedup
      window is over. */
  lemma ExpiryNeverShows(cfg: Config, steps: seq<TimedStep>, dedupMs: nat, first: int, slack: nat, now: int)
    requires 0 < cfg.timeoutMs && cfg.timeoutMs + slack < WINDOW_TTL_MS
    requires Orderly(steps, map[], dedupMs, first) && LastAt(steps, first) <= now
    requires Punctual(cfg, steps, slack, now)
    ensures var s := Run(cfg, INIT, Actions(steps));
            var live := Purge(ExpiringRun(cfg, dedupMs, FRESH, steps), now).store;
            SameButClaims(live, s) && live.redis.claims <= s.redis.claims
  {
    hide Run, ExpiringRun, Purge, Prompt, Actions, Punctual, At, Orderly, Timely, OnTime, Clean, SameButClaims;
    var n := |steps|;
    OrderlySteps(steps, map[], dedupMs, first);
    forall k | 0 <= k < n ensures Prompt(At(cfg, steps, k), steps[k].at, slack) {
      assert steps[k] in steps;
      PunctualMeansPrompt(cfg, steps, slack, now, k, steps[k].at);
    }
    PunctualMeansPrompt(cfg, steps, slack, now, n, now);
    assert steps[0..] == steps;
    TimelyFrom(cfg, steps, 0, map[], dedupMs, first, slack);
    StartAndEnd(cfg, steps);
    PromptMeansUnexpired(cfg, steps, dedupMs, first, slack, now);
  }

  lemma StartAndEnd(cfg: Config, steps: seq<TimedStep>)
    ensures At(cfg, steps, 0) == INIT && At(cfg, steps, |steps|) == Run(cfg, INIT, Actions(steps))
  {
    assert steps[..|steps|] == steps;
  }
}
