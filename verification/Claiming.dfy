/** pop_expired_deadlines and pop_expired_escalations with any number of workers: each takes a
    snapshot of the expired members and then removes them one by one, keeping those that its
    own ZREM removed. Any two commands of different workers may interleave. */
module Claiming {

  type Id = nat

  /** `seen` is the snapshot, `todo` what is left of it, `got` what the worker will return. For
      the record, `due` holds the scores that the returned ids had when they were removed. */
  datatype Worker = Worker(now: int, seen: seq<Id>, todo: seq<Id>, got: seq<Id>, due: seq<int>)

  /** The sorted set and, for the record, how often each id entered it, how often it was removed
      by other commands than a worker's, and the score it entered with last. */
  datatype Shared = Shared(
    zset: map<Id, int>, workers: seq<Worker>,
    inserted: multiset<Id>, removed: multiset<Id>, scores: map<Id, int>)

  datatype Command =
    | Zadd(id: Id, score: int)
    | Remove(id: Id)
    | Snapshot(now: int, members: seq<Id>)
    | Zrem(w: nat)

  predicate NoRepeats(ids: seq<Id>) {
    forall i, j | 0 <= i < j < |ids| :: ids[i] != ids[j]
  }

  /** ZRANGEBYSCORE -inf now, in some order. */
  predicate IsSnapshot(zset: map<Id, int>, now: int, members: seq<Id>) {
    && NoRepeats(members)
    && (forall id <- members :: id in zset && zset[id] <= now)
    && (forall id <- zset :: zset[id] <= now ==> id in members)
  }

  function Execute(s: Shared, c: Command): Shared {
    match c
    case Zadd(id, score) =>
      s.(zset := s.zset[id := score], scores := s.scores[id := score],
         inserted := if id in s.zset then s.inserted else s.inserted + multiset{id})
    case Remove(id) =>
      if id in s.zset then s.(zset := s.zset - {id}, removed := s.removed + multiset{id}) else s
    case Snapshot(now, members) =>
      if IsSnapshot(s.zset, now, members)
      then s.(workers := s.workers + [Worker(now, members, members, [], [])]) else s
    case Zrem(w) =>
      if w >= |s.workers| || s.workers[w].todo == [] then s
      else
        var x := s.workers[w];
        var id := x.todo[0];
        if id in s.zset
        then s.(zset := s.zset - {id},
                workers := s.workers[w := x.(todo := x.todo[1..], got := x.got + [id], due := x.due + [s.zset[id]])])
        else s.(workers := s.workers[w := x.(todo := x.todo[1..])])
  }

  function ExecuteAll(s: Shared, commands: seq<Command>): Shared
    decreases |commands|
  {
    if commands == [] then s else ExecuteAll(Execute(s, commands[0]), commands[1..])
  }

  const EMPTY := Shared(map[], [], multiset{}, multiset{}, map[])

  /** How often `id` was returned, over all workers. */
  function Returned(workers: seq<Worker>, id: Id): nat {
    if workers == [] then 0
    else Returned(workers[..|workers| - 1], id) + multiset(workers[|workers| - 1].got)[id]
  }

  lemma ReturnedAppend(workers: seq<Worker>, x: Worker, id: Id)
    ensures Returned(workers + [x], id) == Returned(workers, id) + multiset(x.got)[id]
  {
    assert (workers + [x])[..|workers|] == workers;
  }

  lemma {:induction false} ReturnedUpdate(workers: seq<Worker>, w: nat, x: Worker, id: Id)
    requires w < |workers|
    ensures Returned(workers[w := x], id) ==
            Returned(workers, id) - multiset(workers[w].got)[id] + multiset(x.got)[id]
    decreases |workers|
  {
    var last := |workers| - 1;
    if w == last {
      assert workers[w := x][..last] == workers[..last];
    } else {
      assert workers[w := x][..last] == workers[..last][w := x];
      ReturnedUpdate(workers[..last], w, x, id);
    }
  }

  lemma {:induction false} ReturnedAtLeast(workers: seq<Worker>, w: nat, id: Id)
    requires w < |workers|
    ensures multiset(workers[w].got)[id] <= Returned(workers, id)
    decreases |workers|
  {
    var last := |workers| - 1;
    if w == last {
    } else {
      ReturnedAtLeast(workers[..last], w, id);
    }
  }

  lemma {:induction false} ReturnedByTwo(workers: seq<Worker>, v: nat, w: nat, id: Id)
    requires v < w < |workers|
    ensures multiset(workers[v].got)[id] + multiset(workers[w].got)[id] <= Returned(workers, id)
    decreases |workers|
  {
    var last := |workers| - 1;
    if w == last {
      ReturnedAtLeast(workers[..last], v, id);
    } else {
      ReturnedByTwo(workers[..last], v, w, id);
    }
  }

  ghost predicate Counted(s: Shared) {
    forall id: Id ::
      s.inserted[id] == Returned(s.workers, id) + s.removed[id] + (if id in s.zset then 1 else 0)
  }

  lemma ZremCounted(s: Shared, w: nat, id: Id)
    requires Counted(s) && w < |s.workers| && s.workers[w].todo != []
    ensures var t := Execute(s, Zrem(w));
            t.inserted[id] == Returned(t.workers, id) + t.removed[id] + (if id in t.zset then 1 else 0)
  {
    hide Returned, Counted;
    var x, t := s.workers[w], Execute(s, Zrem(w));
    ReturnedUpdate(s.workers, w, t.workers[w], id);
    CountedAt(s, id);
    if x.todo[0] in s.zset {
      assert multiset(x.got + [x.todo[0]]) == multiset(x.got) + multiset{x.todo[0]};
    }
  }

  lemma CountedAt(s: Shared, id: Id)
    requires Counted(s)
    ensures s.inserted[id] == Returned(s.workers, id) + s.removed[id] + (if id in s.zset then 1 else 0)
  {}

  lemma ExecuteCounted(s: Shared, c: Command)
    requires Counted(s)
    ensures Counted(Execute(s, c))
  {
    hide Returned, IsSnapshot;
    var t := Execute(s, c);
    forall id: Id
      ensures t.inserted[id] == Returned(t.workers, id) + t.removed[id] + (if id in t.zset then 1 else 0)
    {
      CountedAt(s, id);
      match c
      case Snapshot(now, members) => ReturnedAppend(s.workers, Worker(now, members, members, [], []), id);
      case Zrem(w) => if w < |s.workers| && s.workers[w].todo != [] { ZremCounted(s, w, id); }
      case _ =>
    }
  }

  /** However the commands interleave: an id is returned and removed exactly as often as it
      entered the set, counting the entry that is still there. */
  lemma {:induction false} ReturnsNeverExceedInsertions(s: Shared, commands: seq<Command>)
    requires Counted(s)
    ensures Counted(ExecuteAll(s, commands))
    decreases |commands|
  {
    hide Execute, Counted;
    if commands == [] {
    } else {
      ExecuteCounted(s, commands[0]);
      ReturnsNeverExceedInsertions(Execute(s, commands[0]), commands[1..]);
    }
  }

  // ----- Escalations: every id enters the set once, and only workers remove it -----

  ghost predicate OncePerId(commands: seq<Command>) {
    && (forall c <- commands :: !c.Remove?)
    && forall i, j | 0 <= i < j < |commands| ::
         commands[i].Zadd? && commands[j].Zadd? ==> commands[i].id != commands[j].id
  }

  predicate WorkerOk(s: Shared, x: Worker) {
    && |x.todo| <= |x.seen| && x.todo == x.seen[|x.seen| - |x.todo|..]
    && (forall id <- x.seen :: id in s.scores && s.scores[id] <= x.now)
    && (forall id <- x.got :: id in x.seen)
    && (forall i | 0 <= i < |x.seen| - |x.todo| :: x.seen[i] !in s.zset)
  }

  ghost predicate EscalationsOk(s: Shared) {
    && Counted(s) && s.removed == multiset{}
    && (forall id: Id :: s.inserted[id] == if id in s.scores then 1 else 0)
    && (forall id <- s.zset :: id in s.scores && s.zset[id] == s.scores[id])
    && (forall x <- s.workers :: WorkerOk(s, x))
  }

  lemma ExecuteEscalations(s: Shared, c: Command)
    requires EscalationsOk(s) && !c.Remove? && (c.Zadd? ==> c.id !in s.scores)
    ensures EscalationsOk(Execute(s, c))
  {
    hide Counted, Returned, IsSnapshot, WorkerOk;
    var t := Execute(s, c);
    assert Counted(t) by { ExecuteCounted(s, c); }
    ExecuteWorkers(s, c);
  }

  lemma ExecuteWorkers(s: Shared, c: Command)
    requires EscalationsOk(s) && !c.Remove? && (c.Zadd? ==> c.id !in s.scores)
    ensures forall x <- Execute(s, c).workers :: WorkerOk(Execute(s, c), x)
  {
    hide Counted, Returned;
    var t := Execute(s, c);
    forall x <- t.workers ensures WorkerOk(t, x) {
      match c
      case Zrem(w) =>
        if w < |s.workers| && s.workers[w].todo != [] {
          assert s.workers[w] in s.workers;
          if x == t.workers[w] { ZremWorkerOk(s, w); } else { assert x in s.workers; }
        }
      case Snapshot(now, members) =>
        if x !in s.workers { assert x == Worker(now, members, members, [], []); }
      case Zadd(_, _) => assert x in s.workers;
      case Remove(_) =>
    }
  }

  lemma ZremWorkerOk(s: Shared, w: nat)
    requires w < |s.workers| && s.workers[w].todo != [] && WorkerOk(s, s.workers[w])
    ensures WorkerOk(Execute(s, Zrem(w)), Execute(s, Zrem(w)).workers[w])
  {
    var x, t := s.workers[w], Execute(s, Zrem(w));
    var y, done := t.workers[w], |x.seen| - |x.todo|;
    assert x.todo[0] == x.seen[done];
    assert y.todo == x.seen[done + 1..];
  }

  lemma {:induction false} RunEscalations(s: Shared, commands: seq<Command>)
    requires EscalationsOk(s) && OncePerId(commands)
    requires forall c <- commands :: c.Zadd? ==> c.id !in s.scores
    ensures EscalationsOk(ExecuteAll(s, commands))
    decreases |commands|
  {
    hide EscalationsOk;
    if commands == [] {
    } else {
      var c := commands[0];
      assert c in commands;
      ExecuteEscalations(s, c);
      forall d <- commands[1..] | d.Zadd? ensures d.id !in Execute(s, c).scores {
        var j :| 0 <= j < |commands| - 1 && commands[1..][j] == d;
        assert commands[j + 1] == d && d in commands;
      }
      RunEscalations(Execute(s, c), commands[1..]);
    }
  }

  /** Each escalation is returned by at most one worker, at most once, and only if it was due at
      that worker's clock; and when all workers have finished, every escalation that any of
      them saw has been returned exactly once. */
  lemma EscalationsClaimedOnce(commands: seq<Command>)
    requires OncePerId(commands)
    ensures var s := ExecuteAll(EMPTY, commands);
            && (forall id: Id :: Returned(s.workers, id) <= 1)
            && (forall v, w, id | 0 <= v < w < |s.workers| && id in s.workers[v].got :: id !in s.workers[w].got)
            && (forall x <- s.workers, id <- x.got :: id in s.scores && s.scores[id] <= x.now)
            && ((forall x <- s.workers :: x.todo == []) ==>
                  forall x <- s.workers, id <- x.seen :: Returned(s.workers, id) == 1)
  {
    hide Returned, ExecuteAll;
    assert EscalationsOk(EMPTY) by { EmptyOk(); }
    RunEscalations(EMPTY, commands);
    var s := ExecuteAll(EMPTY, commands);
    forall id: Id ensures Returned(s.workers, id) <= 1 {
      assert s.inserted[id] == Returned(s.workers, id) + s.removed[id] + (if id in s.zset then 1 else 0);
    }
    forall v, w, id | 0 <= v < w < |s.workers| && id in s.workers[v].got ensures id !in s.workers[w].got {
      ReturnedByTwo(s.workers, v, w, id);
      assert Returned(s.workers, id) <= 1 && multiset(s.workers[v].got)[id] >= 1;
      assert multiset(s.workers[w].got)[id] == 0;
    }
    forall x <- s.workers, id <- x.got ensures id in s.scores && s.scores[id] <= x.now {
      assert WorkerOk(s, x);
    }
    if forall x <- s.workers :: x.todo == [] {
      forall x <- s.workers, id <- x.seen ensures Returned(s.workers, id) == 1 { SeenReturned(s, x, id); }
    }
  }

  lemma SeenReturned(s: Shared, x: Worker, id: Id)
    requires EscalationsOk(s) && x in s.workers && x.todo == [] && id in x.seen
    ensures Returned(s.workers, id) == 1
  {
    hide Returned;
    assert WorkerOk(s, x);
    var i :| 0 <= i < |x.seen| && x.seen[i] == id;
    CountedAt(s, id);
  }

  lemma EmptyOk()
    ensures EscalationsOk(EMPTY)
  {}

  // ----- Deadlines may enter the set again -----

  /** For example: between a worker's snapshot and its ZREM, a deadline is removed and the
      transaction's next window queues a later one; the worker returns the later one, undue.
      Module EarlyPops says exactly when that happens. */
  lemma LaterDeadlinePoppedEarly(id: Id, early: int, late: int)
    requires early < late
    ensures var s := ExecuteAll(EMPTY, [Zadd(id, early), Snapshot(early, [id]), Remove(id), Zadd(id, late), Zrem(0)]);
            && |s.workers| == 1 && s.workers[0].got == [id] && s.workers[0].due == [late]
            && late > s.workers[0].now && id !in s.zset
  {
    var commands := [Zadd(id, early), Snapshot(early, [id]), Remove(id), Zadd(id, late), Zrem(0)];
    var s1 := Execute(EMPTY, commands[0]);
    var s2 := Execute(s1, commands[1]);
    assert s1.zset == map[id := early] && IsSnapshot(s1.zset, early, [id]);
    assert s2.workers == [Worker(early, [id], [id], [], [])];
    hide IsSnapshot;
    var s4 := Execute(Execute(s2, commands[2]), commands[3]);
    assert s4.workers == s2.workers && id in s4.zset && s4.zset[id] == late;
    LastZrem(s4, id, early, late);
    FiveCommands(commands);
  }

  lemma LastZrem(s: Shared, id: Id, now: int, score: int)
    requires s.workers == [Worker(now, [id], [id], [], [])] && id in s.zset && s.zset[id] == score
    ensures var t := Execute(s, Zrem(0));
            t.workers == [Worker(now, [id], [], [id], [score])] && id !in t.zset
  {
    assert [id][1..] == [] && [] + [id] == [id] && [] + [score] == [score];
  }

  lemma FiveCommands(c: seq<Command>)
    requires |c| == 5
    ensures ExecuteAll(EMPTY, c) ==
            Execute(Execute(Execute(Execute(Execute(EMPTY, c[0]), c[1]), c[2]), c[3]), c[4])
  {
    hide Execute;
    var s1 := Execute(EMPTY, c[0]);
    var s2 := Execute(s1, c[1]);
    var s3 := Execute(s2, c[2]);
    var s4 := Execute(s3, c[3]);
    assert c[1..][1..] == c[2..] && c[2..][1..] == c[3..] && c[3..][1..] == c[4..] && c[4..][1..] == [];
    assert ExecuteAll(s4, c[4..]) == ExecuteAll(Execute(s4, c[4]), []);
    assert ExecuteAll(s3, c[3..]) == ExecuteAll(s4, c[4..]);
    assert ExecuteAll(s2, c[2..]) == ExecuteAll(s3, c[3..]);
    assert ExecuteAll(s1, c[1..]) == ExecuteAll(s2, c[2..]);
  }
}
