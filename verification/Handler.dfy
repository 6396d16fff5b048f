/** services/ingestor/handler.go: handleEvent as an object's method. A request that runs alone
    is a run of module Ingestor's steps, so what holds of all their interleavings holds of it. */
module Handler {
  import opened Wrappers
  import opened Ingestor

  lemma NextAllSnoc(s: Ingest, events: seq<Event>, e: Event)
    ensures NextAll(s, events + [e]) == Next(NextAll(s, events), e)
  {
    hide Next;
    NextAllConcat(s, events, [e]);
    var t := NextAll(s, events);
    assert NextAll(t, [e]) == NextAll(Next(t, e), [e][1..]);
  }

  ghost predicate OnlyRequest(done: seq<Event>, i: RequestId) {
    forall e <- done :: (e.Submit? || e.Advance?) && e.i == i
  }

  /** Which of a request's store commands get through. */
  datatype Net = Net(setnx: bool, get: bool, insert: bool, xadd: bool, del: bool, put: bool)

  /** What a valid request that runs alone finds: it is answered at the key, or goes on. */
  predicate PastKey(keys: map<Key, KeyValue>, key: Key, net: Net) {
    net.setnx && (key !in keys || !net.get)
  }

  function ReplyAtKey(keys: map<Key, KeyValue>, key: Key, net: Net): Reply
    requires !PastKey(keys, key, net)
  {
    if !net.setnx then ServerError
    else match keys[key] case Processing => InFlight case Response(id) => Accepted(id)
  }

  lemma NeverBadRequest(keys: map<Key, KeyValue>, key: Key, net: Net)
    ensures PastKey(keys, key, net) || ReplyAtKey(keys, key, net) != BadRequest
  {}

  /** The keys once the request has tried to claim its own. */
  function Held(keys: map<Key, KeyValue>, key: Key, net: Net): map<Key, KeyValue> {
    if net.setnx && key !in keys then keys[key := Processing] else keys
  }

  class IngestHandler {
    var keys: map<Key, KeyValue>
    var rows: set<(IdText, string)>
    var stream: seq<Message>
    ghost var requests: map<RequestId, Request>
    ghost var holder: map<Key, RequestId>

    ghost function Now(): Ingest
      reads this
    {
      Ingest(keys, rows, stream, requests, holder)
    }

    constructor ()
      ensures Now() == START
    {
      keys, rows, stream, requests, holder := map[], {}, [], map[], map[];
    }

    /** The store command that the request was about to issue has been issued. */
    ghost method Issued(before: Ingest, start: Ingest, i: RequestId, up: bool, done: seq<Event>)
      returns (more: seq<Event>)
      requires i in before.requests && before == NextAll(start, done) && OnlyRequest(done, i)
      requires var t := NextPhase(before, i, up); keys == t.keys && rows == t.rows && stream == t.stream
      modifies this`requests, this`holder
      ensures Now() == NextPhase(before, i, up) == NextAll(start, more) && OnlyRequest(more, i)
    {
      hide NextAll, NextPhase;
      var t := NextPhase(before, i, up);
      requests, holder := t.requests, t.holder;
      more := done + [Advance(i, up)];
      NextAllSnoc(start, done, Advance(i, up));
    }

    /** DEL of the key, whose outcome is ignored, before a 500. */
    method Release(i: RequestId, key: Key, net: Net, ghost start: Ingest, ghost done: seq<Event>)
      returns (reply: Reply, ghost more: seq<Event>)
      requires i in requests && requests[i].phase == Releasing && requests[i].key == key
      requires Now() == NextAll(start, done) && OnlyRequest(done, i)
      modifies this
      ensures Now() == NextAll(start, more) && OnlyRequest(more, i)
      ensures i in requests && requests[i].phase == Done(reply) && reply == ServerError
      ensures stream == old(stream) && keys == if net.del then old(keys) - {key} else old(keys)
    {
      hide NextAll;
      ghost var before := Now();
      if net.del { keys := keys - {key}; }
      more := Issued(before, start, i, net.del, done);
      reply := ServerError;
    }

    /** INSERT, XADD and SET of a request that got past the key: 202 exactly if the first two get
        through. */
    method Enqueue(
        i: RequestId, key: Key, event: RawEvent, internalId: InternalId, net: Net,
        ghost start: Ingest, ghost done: seq<Event>)
      returns (reply: Reply, ghost more: seq<Event>)
      requires i in requests && requests[i].phase == Persisting
      requires requests[i].key == key && requests[i].event == event && requests[i].internalId == internalId
      requires Now() == NextAll(start, done) && OnlyRequest(done, i)
      modifies this
      ensures Now() == NextAll(start, more) && OnlyRequest(more, i)
      ensures i in requests && requests[i].phase == Done(reply)
      ensures reply == if net.insert && net.xadd then Accepted(internalId) else ServerError
      ensures stream == if reply.Accepted? then old(stream) + [Message(key, internalId, event)] else old(stream)
      ensures reply.Accepted? ==> keys == if net.put then old(keys)[key := Response(internalId)] else old(keys)
      ensures reply.ServerError? ==> keys == if net.del then old(keys) - {key} else old(keys)
    {
      hide NextAll;
      ghost var before := Now();
      if net.insert { rows := rows + {(event.eventId, event.source)}; }
      more := Issued(before, start, i, net.insert, done);
      if !net.insert {
        reply, more := Release(i, key, net, start, more);
        return;
      }
      before := Now();
      if net.xadd { stream := stream + [Message(key, internalId, event)]; }
      more := Issued(before, start, i, net.xadd, more);
      if !net.xadd {
        reply, more := Release(i, key, net, start, more);
        return;
      }
      before := Now();
      if net.put { keys := keys[key := Response(internalId)]; }
      more := Issued(before, start, i, net.put, more);
      reply := Accepted(internalId);
    }

    /** SETNX and, if the key is taken, GET: an answer, or None if the request goes on. */
    method ClaimKey(i: RequestId, key: Key, net: Net, ghost start: Ingest, ghost done: seq<Event>)
      returns (answer: Option<Reply>, ghost more: seq<Event>)
      requires i in requests && requests[i].phase == Claiming && requests[i].key == key
      requires Now() == NextAll(start, done) && OnlyRequest(done, i)
      modifies this
      ensures Now() == NextAll(start, more) && OnlyRequest(more, i) && stream == old(stream)
      ensures answer == if PastKey(old(keys), key, net) then None else Some(ReplyAtKey(old(keys), key, net))
      ensures keys == Held(old(keys), key, net)
      ensures i in requests
      ensures requests[i] == old(requests)[i].(phase := if answer.None? then Persisting else Done(answer.value))
    {
      hide NextAll;
      ghost var before := Now();
      var isSet := key !in keys;
      if net.setnx && isSet { keys := keys[key := Processing]; }
      more := Issued(before, start, i, net.setnx, done);
      if !net.setnx {
        return Some(ServerError), more;
      }
      if isSet {
        return None, more;
      }
      before := Now();
      more := Issued(before, start, i, net.get, more);
      if !net.get {
        return None, more;
      }
      match keys[key]
      case Processing => answer := Some(InFlight);
      case Response(id) => answer := Some(Accepted(id));
    }

    /** handleEvent from the validation to the reply. What is stored under the key and the outcomes
        of the commands determine the reply and the new state. */
    method HandleEvent(i: RequestId, key: Key, event: RawEvent, internalId: InternalId, now: int, net: Net)
      returns (reply: Reply, ghost done: seq<Event>)
      requires i !in requests
      modifies this
      ensures Now() == NextAll(old(Now()), done) && OnlyRequest(done, i)
      ensures i in requests && requests[i].phase == Done(reply)
      ensures ValidateEvent(event, now) != None ==>
                reply == BadRequest && keys == old(keys) && stream == old(stream)
      ensures ValidateEvent(event, now) == None && !PastKey(old(keys), key, net) ==>
                && reply == ReplyAtKey(old(keys), key, net)
                && keys == Held(old(keys), key, net) && stream == old(stream)
      ensures ValidateEvent(event, now) == None && PastKey(old(keys), key, net) && net.insert && net.xadd ==>
                && reply == Accepted(internalId) && stream == old(stream) + [Message(key, internalId, event)]
                && var held := Held(old(keys), key, net);
                   keys == if net.put then held[key := Response(internalId)] else held
      ensures ValidateEvent(event, now) == None && PastKey(old(keys), key, net) && !(net.insert && net.xadd) ==>
                && reply == ServerError && stream == old(stream)
                && var held := Held(old(keys), key, net); keys == if net.del then held - {key} else held
      ensures reply == BadRequest <==> ValidateEvent(event, now) != None
      ensures IngestOk(old(Now())) && reply.Accepted? ==> exists m <- stream :: m.internalId == reply.id
    {
      hide NextAll, ValidateEvent, PastKey, ReplyAtKey, Held, IngestOk;
      ghost var start := Now();
      ghost var submit := Submit(i, key, event, internalId, now);
      done := [submit];
      assert NextAll(start, done) == Next(start, submit) by { NextAllOne(start, submit); }
      ghost var entered := Next(start, submit);
      requests := entered.requests;
      if ValidateEvent(event, now).Some? {
        return BadRequest, done;
      }
      var answer;
      answer, done := ClaimKey(i, key, net, start, done);
      if answer.Some? {
        reply := answer.value;
      } else {
        reply, done := Enqueue(i, key, event, internalId, net, start, done);
      }
      if IngestOk(start) && reply.Accepted? { AcceptedIsQueued(start, done, i); }
      NeverBadRequest(old(keys), key, net);
    }
  }

  /** And in a state that the protocol reaches, whoever is accepted has its id in the stream. */
  lemma AcceptedIsQueued(start: Ingest, done: seq<Event>, i: RequestId)
    requires IngestOk(start) && i in NextAll(start, done).requests
    requires NextAll(start, done).requests[i].phase.Done? && NextAll(start, done).requests[i].phase.reply.Accepted?
    ensures var t := NextAll(start, done); exists m <- t.stream :: m.internalId == t.requests[i].phase.reply.id
  {
    hide NextAll, MessageOk;
    NextAllOk(start, done);
    var t := NextAll(start, done);
    assert RequestOk(t, t.requests[i]);
  }
}
