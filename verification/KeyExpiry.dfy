/** When the expiry of an idempotency key costs the promise of one append. */
module KeyExpiry {
  import opened Wrappers
  import opened Ingestor

  predicate FreshRequest(s: Ingest, e: Event, key: Key) {
    e.Submit? && e.i !in s.requests && e.key == key && ValidateEvent(e.event, e.now) == None
  }

  /** A request for the key has lost SETNX and not read the key yet. */
  ghost predicate SomeReader(s: Ingest, key: Key) {
    exists i <- s.requests :: s.requests[i].key == key && s.requests[i].phase == Reading
  }

  // ----- Runs that append -----

  /** With the key gone, one new request claims it and appends. */
  lemma OneNewcomer(s: Ingest, key: Key, late: Event) returns (more: seq<Event>)
    requires key !in s.keys && FreshRequest(s, late, key)
    ensures forall e <- more :: Smooth(e)
    ensures var t := NextAll(s, more);
            && |Appends(t.stream, key)| == |Appends(s.stream, key)| + 1
            && t.requests.Keys == s.requests.Keys + {late.i}
            && forall j <- s.requests :: j in t.requests && t.requests[j] == s.requests[j]
  {
    hide Appends, ValidateEvent, NextAll;
    var enter := [late, Advance(late.i, true)];
    NextAllTwo(s, late, Advance(late.i, true));
    var t := NextAll(s, enter);
    assert t.stream == s.stream && t.requests[late.i].phase == Persisting && t.requests[late.i].key == key;
    PushedThrough(t, late.i);
    PushedKeys(t, late.i);
    more := enter + PushThrough(late.i);
    NextAllConcat(s, enter, PushThrough(late.i));
  }

  lemma PushedKeys(s: Ingest, i: RequestId)
    requires i in s.requests && s.requests[i].phase == Persisting
    ensures NextAll(s, PushThrough(i)).requests.Keys == s.requests.Keys
  {
    NextAllTwo(s, Advance(i, true), Advance(i, true));
  }

  /** First one more command of request `h`, then what the rest does. */
  lemma AfterOne(s: Ingest, h: RequestId, rest: seq<Event>)
    ensures NextAll(s, [Advance(h, true)] + rest) == NextAll(Next(s, Advance(h, true)), rest)
  {
    hide NextAll, Next;
    NextAllConcat(s, [Advance(h, true)], rest);
    NextAllOne(s, Advance(h, true));
  }

  lemma Expired(s: Ingest, key: Key)
    ensures var t := Next(s, Expire(key));
            key !in t.keys && t.stream == s.stream && t.requests == s.requests
  {}

  /** What the key's holder has done so far decides who appends next. */
  lemma TwoAfterExpiry(s: Ingest, key: Key, late: Event, later: Event) returns (more: seq<Event>)
    requires HeldOk(s) && key in s.keys && !Stuck(s, key)
    requires FreshRequest(s, late, key) && FreshRequest(s, later, key) && late.i != later.i
    ensures forall e <- more :: Smooth(e)
    ensures |Appends(NextAll(Next(s, Expire(key)), more).stream, key)| >= 2
  {
    hide Appends, ValidateEvent, NextAll, Next, NextPhase, HeldOk;
    KeyHeld(s, key);
    Expired(s, key);
    var t, h := Next(s, Expire(key)), s.holder[key];
    match s.requests[h].phase
    case Persisting => more := NewcomerAppends(t, h, late);
    case Queueing =>
      HolderQueues(t, h);
      QueueingKeeps(t, h);
      var rest := OneNewcomer(Next(t, Advance(h, true)), key, late);
      more := [Advance(h, true)] + rest;
      AfterOne(t, h, rest);
    case Releasing => more := ReleasedLate(t, h, key, late, later);
    case _ => more := OneNewcomer(t, key, late);
  }

  lemma KeyHeld(s: Ingest, key: Key)
    requires HeldOk(s)
    ensures KeyOk(s, key)
  {}

  lemma QueueingKeeps(s: Ingest, h: RequestId)
    requires h in s.requests && s.requests[h].phase == Queueing
    ensures Next(s, Advance(h, true)).keys == s.keys
    ensures Next(s, Advance(h, true)).requests.Keys == s.requests.Keys
  {}

  /** The holder's late DEL takes away the key of a request that has claimed it since. */
  lemma ReleasedLate(s: Ingest, h: RequestId, key: Key, late: Event, later: Event) returns (more: seq<Event>)
    requires key !in s.keys && h in s.requests && s.requests[h].phase == Releasing && s.requests[h].key == key
    requires FreshRequest(s, late, key) && FreshRequest(s, later, key) && late.i != later.i
    ensures forall e <- more :: Smooth(e)
    ensures |Appends(NextAll(s, more).stream, key)| >= 2
  {
    hide Appends, ValidateEvent, NextAll, Next, NextPhase;
    var first := OneNewcomer(s, key, late);
    var t := NextAll(s, first);
    HolderReleases(t, h);
    var u := Next(t, Advance(h, true));
    var second := OneNewcomer(u, key, later);
    AfterOne(t, h, second);
    more := first + ([Advance(h, true)] + second);
    NextAllConcat(s, first, [Advance(h, true)] + second);
  }

  /** A request that was about to read the key finds it gone. */
  lemma ReaderAppends(s: Ingest, i: RequestId, key: Key, late: Event) returns (more: seq<Event>)
    requires key !in s.keys && i in s.requests && s.requests[i].phase == Reading && s.requests[i].key == key
    requires FreshRequest(s, late, key)
    ensures forall e <- more :: Smooth(e)
    ensures |Appends(NextAll(s, more).stream, key)| >= 2
  {
    hide Appends, ValidateEvent, NextAll, Next, NextPhase;
    ReaderGoesOn(s, i);
    var rest := NewcomerAppends(Next(s, Advance(i, true)), i, late);
    more := [Advance(i, true)] + rest;
    AfterOne(s, i, rest);
  }

  lemma ReaderGoesOn(s: Ingest, i: RequestId)
    requires i in s.requests && s.requests[i].phase == Reading && s.requests[i].key !in s.keys
    ensures var t := Next(s, Advance(i, true));
            && t.keys == s.keys && t.stream == s.stream && t.requests.Keys == s.requests.Keys
            && t.requests[i] == s.requests[i].(phase := Persisting)
  {}

  // ----- Runs that cannot -----

  /** Nothing has been appended under the key, and nobody is past it or about to read it. */
  predicate Quiet(s: Ingest, key: Key) {
    && key !in s.keys && Appends(s.stream, key) == []
    && forall j <- s.requests | s.requests[j].key == key :: s.requests[j].phase.Claiming? || s.requests[j].phase.Done?
  }

  lemma QuietStep(s: Ingest, key: Key, e: Event)
    requires Quiet(s, key) && Smooth(e)
    ensures Quiet(Next(s, e), key) || (e.Advance? && Alone(Next(s, e), key, e.i))
  {
    hide Appends, ValidateEvent;
    if e.Advance? && e.i in s.requests {
      AppendsAfter(s, e.i, true, key);
      assert Appends(s.stream, key) + [] == Appends(s.stream, key);
    }
  }

  lemma {:induction false} QuietAppendsOnce(s: Ingest, key: Key, more: seq<Event>)
    requires Quiet(s, key) && forall e <- more :: Smooth(e)
    ensures |Appends(NextAll(s, more).stream, key)| <= 1
    decreases |more|
  {
    hide Appends, Next, Smooth, Alone;
    if more == [] {
    } else {
      var t := Next(s, more[0]);
      assert more[0] in more;
      QuietStep(s, key, more[0]);
      if Quiet(t, key) {
        QuietAppendsOnce(t, key, more[1..]);
      } else {
        AloneAppendsOnce(t, key, more[0].i, more[1..]);
      }
    }
  }

  lemma StuckIsQuiet(s: Ingest, key: Key)
    requires HeldOk(s) && Stuck(s, key) && !SomeReader(s, key)
    ensures Quiet(Next(s, Expire(key)), key)
  {
    hide Appends, Next;
    Expired(s, key);
    assert KeyOk(s, key);
    forall j <- s.requests | s.requests[j].key == key
      ensures s.requests[j].phase.Claiming? || s.requests[j].phase.Done?
    {
      assert OnlyHolder(s, j);
    }
  }

  /** After a key's expiry, failure-free commands can append twice under it, exactly unless its
      holder had answered 500 without deleting it and nobody was about to read it. `late` and
      `later` are further requests with the key. */
  lemma ExpiryAppendsTwiceIff(s: Ingest, key: Key, late: Event, later: Event)
    requires HeldOk(s) && key in s.keys
    requires FreshRequest(s, late, key) && FreshRequest(s, later, key) && late.i != later.i
    ensures (exists more: seq<Event> ::
               (forall e <- more :: Smooth(e)) && |Appends(NextAll(Next(s, Expire(key)), more).stream, key)| >= 2)
            <==> !(Stuck(s, key) && !SomeReader(s, key))
  {
    hide Appends, ValidateEvent, NextAll, Next, HeldOk, Stuck, Smooth, Quiet, FreshRequest;
    var t := Next(s, Expire(key));
    if Stuck(s, key) && !SomeReader(s, key) {
      StuckIsQuiet(s, key);
      forall more: seq<Event> | forall e <- more :: Smooth(e)
        ensures |Appends(NextAll(t, more).stream, key)| <= 1
      {
        QuietAppendsOnce(t, key, more);
      }
    } else {
      var more;
      if Stuck(s, key) {
        var i :| i in s.requests && s.requests[i].key == key && s.requests[i].phase == Reading;
        Expired(s, key);
        StillFresh(s, t, late, key);
        more := ReaderAppends(t, i, key, late);
      } else {
        more := TwoAfterExpiry(s, key, late, later);
      }
      assert (forall e <- more :: Smooth(e)) && |Appends(NextAll(t, more).stream, key)| >= 2;
    }
  }

  lemma StillFresh(s: Ingest, t: Ingest, e: Event, key: Key)
    requires FreshRequest(s, e, key) && t.requests == s.requests
    ensures FreshRequest(t, e, key)
  {}
}
