/** When a worker returns an id that is not due at the worker's clock. */
module EarlyPops {
  import opened Wrappers
  import opened Claiming

  function After(commands: seq<Command>, n: nat): Shared
    requires n <= |commands|
  {
    ExecuteAll(EMPTY, commands[..n])
  }

  /** The score with which the commands insert the id last, if they do. */
  function LastScore(commands: seq<Command>, id: Id): Option<int> {
    if commands == [] then None
    else
      var last := commands[|commands| - 1];
      if last.Zadd? && last.id == id then Some(last.score) else LastScore(commands[..|commands| - 1], id)
  }

  /** The id is inserted anew, the last time with a score that is not due at `now`. */
  predicate PutOff(commands: seq<Command>, id: Id, now: int) {
    LastScore(commands, id).Some? && LastScore(commands, id).value > now
  }

  /** Command `p` is the snapshot with which worker `w` starts. */
  predicate Starts(commands: seq<Command>, p: nat, w: nat)
    requires p < |commands|
  {
    commands[p].Snapshot? && |After(commands, p).workers| == w && |After(commands, p + 1).workers| == w + 1
  }

  /** Command `q` is the ZREM by which worker `w` obtains the `k`-th id that it returns. */
  predicate Obtains(commands: seq<Command>, q: nat, w: nat, k: nat)
    requires q < |commands|
  {
    && commands[q] == Zrem(w) && w < |After(commands, q).workers|
    && |After(commands, q).workers[w].got| == k
    && w < |After(commands, q + 1).workers| && |After(commands, q + 1).workers[w].got| == k + 1
  }

  // ----- Runs in parts -----

  lemma {:induction false} ExecuteConcat(s: Shared, a: seq<Command>, b: seq<Command>)
    ensures ExecuteAll(s, a + b) == ExecuteAll(ExecuteAll(s, a), b)
    decreases |a|
  {
    hide Execute;
    if a == [] {
      assert a + b == b;
    } else {
      assert (a + b)[1..] == a[1..] + b;
      ExecuteConcat(Execute(s, a[0]), a[1..], b);
    }
  }

  lemma AfterNext(commands: seq<Command>, n: nat)
    requires n < |commands|
    ensures After(commands, n + 1) == Execute(After(commands, n), commands[n])
  {
    hide Execute;
    assert commands[..n + 1] == commands[..n] + [commands[n]];
    ExecuteConcat(EMPTY, commands[..n], [commands[n]]);
    var t := After(commands, n);
    assert ExecuteAll(t, [commands[n]]) == ExecuteAll(Execute(t, commands[n]), [commands[n]][1..]);
  }

  lemma AfterLater(commands: seq<Command>, m: nat, n: nat)
    requires m <= n <= |commands|
    ensures After(commands, n) == ExecuteAll(After(commands, m), commands[m..n])
  {
    assert commands[..n] == commands[..m] + commands[m..n];
    ExecuteConcat(EMPTY, commands[..m], commands[m..n]);
  }

  // ----- What the commands do to one worker and to one id -----

  /** A worker keeps its clock and what it has obtained; what is left to do only shrinks. */
  predicate Continues(x: Worker, y: Worker) {
    && y.now == x.now && x.got <= y.got && x.due <= y.due && |y.got| - |x.got| == |y.due| - |x.due|
    && forall id <- y.todo :: id in x.todo
  }

  lemma ExecuteContinues(s: Shared, c: Command, w: nat)
    requires w < |s.workers|
    ensures w < |Execute(s, c).workers| && Continues(s.workers[w], Execute(s, c).workers[w])
    ensures c != Zrem(w) ==> Execute(s, c).workers[w] == s.workers[w]
  {
    hide IsSnapshot;
  }

  lemma {:induction false} RunContinues(s: Shared, commands: seq<Command>, w: nat)
    requires w < |s.workers|
    ensures w < |ExecuteAll(s, commands).workers|
    ensures Continues(s.workers[w], ExecuteAll(s, commands).workers[w])
    decreases |commands|
  {
    hide Execute;
    if commands == [] {
    } else {
      ExecuteContinues(s, commands[0], w);
      RunContinues(Execute(s, commands[0]), commands[1..], w);
    }
  }

  /** The score of a member is the one it was inserted with last. */
  lemma {:induction false} MemberScore(s: Shared, commands: seq<Command>, id: Id)
    requires id in ExecuteAll(s, commands).zset
    ensures LastScore(commands, id).Some? ==> ExecuteAll(s, commands).zset[id] == LastScore(commands, id).value
    ensures LastScore(commands, id).None? ==> id in s.zset && ExecuteAll(s, commands).zset[id] == s.zset[id]
    decreases |commands|
  {
    hide Execute;
    if commands == [] {
    } else {
      var n := |commands| - 1;
      var front, c := commands[..n], commands[n];
      assert commands == front + [c];
      ExecuteConcat(s, front, [c]);
      var t := ExecuteAll(s, front);
      assert ExecuteAll(t, [c]) == ExecuteAll(Execute(t, c), [c][1..]);
      OneCommand(t, c, id);
      if c.Zadd? && c.id == id {
      } else {
        MemberScore(s, front, id);
      }
    }
  }

  lemma OneCommand(s: Shared, c: Command, id: Id)
    requires id in Execute(s, c).zset
    ensures if c.Zadd? && c.id == id then Execute(s, c).zset[id] == c.score
            else id in s.zset && Execute(s, c).zset[id] == s.zset[id]
  {
    hide IsSnapshot;
  }

  lemma Snapped(s: Shared, c: Command)
    requires c.Snapshot? && |Execute(s, c).workers| == |s.workers| + 1
    ensures IsSnapshot(s.zset, c.now, c.members) && Execute(s, c).zset == s.zset
    ensures Execute(s, c).workers[|s.workers|] == Worker(c.now, c.members, c.members, [], [])
  {
    hide IsSnapshot;
  }

  lemma Obtained(s: Shared, w: nat)
    requires w < |s.workers| && |Execute(s, Zrem(w)).workers[w].got| == |s.workers[w].got| + 1
    ensures var x, y := s.workers[w], Execute(s, Zrem(w)).workers[w];
            && x.todo != [] && x.todo[0] in s.zset && y.now == x.now
            && y.got == x.got + [x.todo[0]] && y.due == x.due + [s.zset[x.todo[0]]]
  {}

  // ----- The exact condition -----

  /** In every run: what worker `w` returns as its `k`-th id was not due at its clock exactly if,
      between its snapshot and its ZREM of that id, the id was inserted anew and the last time
      with a later score. */
  lemma EarlyPopIff(commands: seq<Command>, w: nat, k: nat, p: nat, q: nat)
    requires p < q < |commands| && Starts(commands, p, w) && Obtains(commands, q, w, k)
    ensures var s := ExecuteAll(EMPTY, commands);
            && w < |s.workers| && k < |s.workers[w].got| && k < |s.workers[w].due|
            && (s.workers[w].due[k] > s.workers[w].now <==>
                  PutOff(commands[p + 1..q], s.workers[w].got[k], s.workers[w].now))
  {
    hide Execute, ExecuteAll, IsSnapshot, After;
    var s0, s1, s2, s3 := After(commands, p), After(commands, p + 1), After(commands, q), After(commands, q + 1);
    var between := commands[p + 1..q];
    AfterNext(commands, p);
    Snapped(s0, commands[p]);
    AfterLater(commands, p + 1, q);
    RunContinues(s1, between, w);
    AfterNext(commands, q);
    Obtained(s2, w);
    var id := s2.workers[w].todo[0];
    assert id in s1.workers[w].todo;
    MemberScore(s1, between, id);
    assert s0.zset[id] <= s1.workers[w].now by { DueInSnapshot(s0.zset, commands[p].now, commands[p].members, id); }
    AfterLater(commands, q + 1, |commands|);
    RunContinues(s3, commands[q + 1..], w);
    WholeRun(commands);
  }

  lemma WholeRun(commands: seq<Command>)
    ensures After(commands, |commands|) == ExecuteAll(EMPTY, commands)
    ensures forall n | 0 <= n <= |commands| :: commands[n..|commands|] == commands[n..]
  {
    assert commands[..|commands|] == commands;
  }

  lemma DueInSnapshot(zset: map<Id, int>, now: int, members: seq<Id>, id: Id)
    requires IsSnapshot(zset, now, members) && id in members
    ensures id in zset && zset[id] <= now
  {}

  /** And every id that a worker returns was obtained by a ZREM of its own, after a snapshot. */
  lemma {:induction false} EveryReturnObtained(commands: seq<Command>, w: nat, k: nat) returns (p: nat, q: nat)
    requires var s := ExecuteAll(EMPTY, commands); w < |s.workers| && k < |s.workers[w].got|
    ensures p < q < |commands| && Starts(commands, p, w) && Obtains(commands, q, w, k)
    decreases |commands|
  {
    hide Execute, ExecuteAll;
    WholeRun(commands);
    if commands == [] {
      NoWorkers();
      assert false;
    } else {
      var n := |commands| - 1;
      var front := commands[..n];
      WholeRun(front);
      AfterNext(commands, n);
      SamePrefixes(commands, n);
      var t := ExecuteAll(EMPTY, front);
      OneCommandAt(t, commands[n], w);
      if w < |t.workers| && k < |t.workers[w].got| {
        p, q := EveryReturnObtained(front, w, k);
      } else {
        p := WorkerStarted(front, w);
        q := n;
      }
    }
  }

  lemma NoWorkers()
    ensures ExecuteAll(EMPTY, []).workers == []
  {}

  lemma OneCommandAt(s: Shared, c: Command, w: nat)
    requires w < |Execute(s, c).workers| && Execute(s, c).workers[w].got != []
    ensures w < |s.workers|
    ensures |s.workers[w].got| <= |Execute(s, c).workers[w].got| <= |s.workers[w].got| + 1
    ensures |s.workers[w].got| < |Execute(s, c).workers[w].got| ==> c == Zrem(w)
  {
    hide IsSnapshot;
  }

  lemma SamePrefixes(commands: seq<Command>, n: nat)
    requires n <= |commands|
    ensures forall m | 0 <= m <= n :: After(commands[..n], m) == After(commands, m)
  {
    forall m | 0 <= m <= n ensures After(commands[..n], m) == After(commands, m) {
      assert commands[..n][..m] == commands[..m];
    }
  }

  lemma {:induction false} WorkerStarted(commands: seq<Command>, w: nat) returns (p: nat)
    requires w < |ExecuteAll(EMPTY, commands).workers|
    ensures p < |commands| && Starts(commands, p, w)
    decreases |commands|
  {
    hide Execute, ExecuteAll;
    WholeRun(commands);
    if commands == [] {
      NoWorkers();
      assert false;
    } else {
      var n := |commands| - 1;
      var front := commands[..n];
      WholeRun(front);
      AfterNext(commands, n);
      SamePrefixes(commands, n);
      var t := ExecuteAll(EMPTY, front);
      if w < |t.workers| {
        p := WorkerStarted(front, w);
      } else {
        OneMoreWorker(t, commands[n]);
        p := n;
      }
    }
  }

  lemma OneMoreWorker(s: Shared, c: Command)
    ensures |Execute(s, c).workers| <= |s.workers| + 1
    ensures |Execute(s, c).workers| > |s.workers| ==> c.Snapshot?
  {
    hide IsSnapshot;
  }

  /** If no id is put off between the snapshot of a worker that sees it and a ZREM of that
      worker, then every worker returns only ids that are due at its clock. */
  lemma OnlyDueReturned(commands: seq<Command>)
    requires forall p, q, w | 0 <= p < q < |commands| && Starts(commands, p, w) && commands[q] == Zrem(w) ::
               forall id <- commands[p].members :: !PutOff(commands[p + 1..q], id, commands[p].now)
    ensures forall x <- ExecuteAll(EMPTY, commands).workers, k | 0 <= k < |x.due| :: x.due[k] <= x.now
  {
    hide ExecuteAll, PutOff, Starts, Obtains;
    var s := ExecuteAll(EMPTY, commands);
    forall x <- s.workers, k | 0 <= k < |x.due| ensures x.due[k] <= x.now {
      var w: nat :| w < |s.workers| && s.workers[w] == x;
      AsManyScores(commands, w);
      var p, q := EveryReturnObtained(commands, w, k);
      EarlyPopIff(commands, w, k, p, q);
      SeenAtStart(commands, w, k, p, q);
      assert commands[q] == Zrem(w) by { ZremAt(commands, q, w, k); }
    }
  }

  lemma ZremAt(commands: seq<Command>, q: nat, w: nat, k: nat)
    requires q < |commands| && Obtains(commands, q, w, k)
    ensures commands[q] == Zrem(w)
  {}

  lemma AsManyScores(commands: seq<Command>, w: nat)
    requires w < |ExecuteAll(EMPTY, commands).workers|
    ensures var x := ExecuteAll(EMPTY, commands).workers[w]; |x.got| == |x.due|
  {
    hide Execute, ExecuteAll, IsSnapshot;
    var p := WorkerStarted(commands, w);
    AfterNext(commands, p);
    Snapped(After(commands, p), commands[p]);
    AfterLater(commands, p + 1, |commands|);
    RunContinues(After(commands, p + 1), commands[p + 1..], w);
    WholeRun(commands);
  }

  lemma SeenAtStart(commands: seq<Command>, w: nat, k: nat, p: nat, q: nat)
    requires p < q < |commands| && Starts(commands, p, w) && Obtains(commands, q, w, k)
    ensures var s := ExecuteAll(EMPTY, commands);
            && commands[p].Snapshot? && w < |s.workers| && k < |s.workers[w].got|
            && s.workers[w].got[k] in commands[p].members && s.workers[w].now == commands[p].now
  {
    hide Execute, ExecuteAll, IsSnapshot, After;
    var s1, s2, s3 := After(commands, p + 1), After(commands, q), After(commands, q + 1);
    AfterNext(commands, p);
    Snapped(After(commands, p), commands[p]);
    AfterLater(commands, p + 1, q);
    RunContinues(s1, commands[p + 1..q], w);
    AfterNext(commands, q);
    Obtained(s2, w);
    assert s2.workers[w].todo[0] in s1.workers[w].todo;
    AfterLater(commands, q + 1, |commands|);
    RunContinues(s3, commands[q + 1..], w);
    WholeRun(commands);
  }
}
