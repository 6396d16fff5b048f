/** services/ingestor/handler.go: validation, and the idempotency-key protocol for any number of
    concurrent requests. Every store command of every request is a step of its own. */
module Ingestor {
  import opened Wrappers
  import opened Model

  /** A field that must hold a UUID: absent, unparsable, or one. */
  datatype IdText = Blank | Malformed | Uuid(id: nat)

  datatype RawEvent = RawEvent(
    eventId: IdText, tx: IdText, source: string, amount: i64, fee: i64,
    currency: string, timestamp: int, txType: string, merchantId: Option<string>)

  datatype Invalid =
    | EventIdRequired | EventIdNotUuid | TxRequired | TxNotUuid | SourceRequired | SourceUnknown
    | AmountNegative | FeeNegative | MerchantFee | CurrencyRequired | CurrencyLength
    | TimestampNotPositive | TimestampInFuture | TxTypeRequired | TxTypeUnknown

  const FUTURE_SLACK_MS := 60000

  function ValidateEvent(e: RawEvent, now: int): Option<Invalid> {
    if e.eventId == Blank then Some(EventIdRequired)
    else if e.eventId == Malformed then Some(EventIdNotUuid)
    else if e.tx == Blank then Some(TxRequired)
    else if e.tx == Malformed then Some(TxNotUuid)
    else if e.source == "" then Some(SourceRequired)
    else if e.source !in {"merchant", "gateway", "bank"} then Some(SourceUnknown)
    else if e.amount < 0 then Some(AmountNegative)
    else if e.fee < 0 then Some(FeeNegative)
    else if e.source == "merchant" && e.fee != 0 then Some(MerchantFee)
    else if e.currency == "" then Some(CurrencyRequired)
    else if |e.currency| != 3 then Some(CurrencyLength)
    else if e.timestamp <= 0 then Some(TimestampNotPositive)
    else if e.timestamp > now + FUTURE_SLACK_MS then Some(TimestampInFuture)
    else if e.txType == "" then Some(TxTypeRequired)
    else if e.txType !in {"card", "transfer"} then Some(TxTypeUnknown)
    else None
  }

  /** What is wrong with an event, one entry for each message that the caller can get. */
  predicate Violates(e: RawEvent, now: int, x: Invalid) {
    match x
    case EventIdRequired => e.eventId.Blank?
    case EventIdNotUuid => e.eventId.Malformed?
    case TxRequired => e.tx.Blank?
    case TxNotUuid => e.tx.Malformed?
    case SourceRequired => e.source == ""
    case SourceUnknown => SourceOf(e.source).None?
    case AmountNegative => e.amount < 0
    case FeeNegative => e.fee < 0
    case MerchantFee => SourceOf(e.source) == Some(Merchant) && e.fee > 0
    case CurrencyRequired => e.currency == ""
    case CurrencyLength => |e.currency| != 3
    case TimestampNotPositive => e.timestamp <= 0
    case TimestampInFuture => e.timestamp - now > 60_000
    case TxTypeRequired => e.txType == ""
    case TxTypeUnknown => e.txType != "card" && e.txType != "transfer"
  }

  /** The order in which the fields are looked at. */
  function Rank(x: Invalid): nat {
    match x
    case EventIdRequired => 0 case EventIdNotUuid => 1 case TxRequired => 2 case TxNotUuid => 3
    case SourceRequired => 4 case SourceUnknown => 5 case AmountNegative => 6 case FeeNegative => 7
    case MerchantFee => 8 case CurrencyRequired => 9 case CurrencyLength => 10 case TimestampNotPositive => 11
    case TimestampInFuture => 12 case TxTypeRequired => 13 case TxTypeUnknown => 14
  }

  /** The caller is told the first thing that is wrong. */
  lemma FirstViolationReported(e: RawEvent, now: int, x: Invalid)
    ensures ValidateEvent(e, now) == Some(x) <==>
              Violates(e, now, x) && forall y: Invalid :: Violates(e, now, y) ==> Rank(x) <= Rank(y)
  {
    var reported := ValidateEvent(e, now);
    if reported.Some? { assert Violates(e, now, reported.value); }
  }

  function SourceOf(name: string): Option<Source> {
    if name == "merchant" then Some(Merchant)
    else if name == "gateway" then Some(Gateway)
    else if name == "bank" then Some(Bank)
    else None
  }

  /** What the matcher decodes a stream message to. */
  function Decode(e: RawEvent): Option<PaymentEvent> {
    if e.eventId.Uuid? && e.tx.Uuid? && SourceOf(e.source).Some?
    then Some(PaymentEvent(e.eventId.id, e.tx.id, SourceOf(e.source).value, e.amount, e.fee,
                           e.currency, e.txType, e.merchantId))
    else None
  }

  /** Accepted events decode, and are exactly those that a caller would call well-formed. */
  lemma ValidIff(e: RawEvent, now: int)
    ensures ValidateEvent(e, now) == None <==>
            && Decode(e).Some? && e.amount >= 0 && e.fee >= 0
            && (SourceOf(e.source) == Some(Merchant) ==> e.fee == 0)
            && |e.currency| == 3 && 0 < e.timestamp <= now + 60_000
            && (e.txType == "card" || e.txType == "transfer")
  {}

  // ----- The protocol -----

  type Key = nat
  type RequestId = nat
  type InternalId = nat

  datatype KeyValue = Processing | Response(id: InternalId)

  datatype Reply = BadRequest | ServerError | InFlight | Accepted(id: InternalId)

  /** Where a request stands: before SETNX, GET, INSERT, XADD, DEL, SET, or answered. */
  datatype Phase = Claiming | Reading | Persisting | Queueing | Releasing | Caching | Done(reply: Reply)

  datatype Request = Request(key: Key, event: RawEvent, internalId: InternalId, receivedAt: int, phase: Phase)

  datatype Message = Message(key: Key, internalId: InternalId, event: RawEvent)

  /** `holder` records which request set each key with SETNX. */
  datatype Ingest = Ingest(
    keys: map<Key, KeyValue>, rows: set<(IdText, string)>, stream: seq<Message>,
    requests: map<RequestId, Request>, holder: map<Key, RequestId>)

  datatype Event =
    | Submit(i: RequestId, key: Key, event: RawEvent, internalId: InternalId, now: int)
    | Advance(i: RequestId, up: bool) // the request's next store command; `up`: it succeeded
    | Expire(key: Key)                // 24 hours after SETNX or SET

  function At(s: Ingest, i: RequestId, phase: Phase): Ingest
    requires i in s.requests
  {
    s.(requests := s.requests[i := s.requests[i].(phase := phase)])
  }

  function NextPhase(s: Ingest, i: RequestId, up: bool): Ingest
    requires i in s.requests
  {
    var r := s.requests[i];
    match r.phase
    case Claiming =>
      if !up then At(s, i, Done(ServerError))
      else if r.key in s.keys then At(s, i, Reading)
      else At(s, i, Persisting).(keys := s.keys[r.key := Processing], holder := s.holder[r.key := i])
    case Reading =>
      // an error, or a key that has gone, reads as the empty string, which is not JSON
      if !up || r.key !in s.keys then At(s, i, Persisting)
      else (match s.keys[r.key]
            case Processing => At(s, i, Done(InFlight))
            case Response(id) => At(s, i, Done(Accepted(id))))
    case Persisting =>
      if !up then At(s, i, Releasing)
      else At(s, i, Queueing).(rows := s.rows + {(r.event.eventId, r.event.source)})
    case Queueing =>
      if !up then At(s, i, Releasing)
      else At(s, i, Caching).(stream := s.stream + [Message(r.key, r.internalId, r.event)])
    case Releasing =>
      var t := At(s, i, Done(ServerError));
      if up then t.(keys := s.keys - {r.key}, holder := s.holder - {r.key}) else t
    case Caching =>
      var t := At(s, i, Done(Accepted(r.internalId)));
      if up then t.(keys := s.keys[r.key := Response(r.internalId)]) else t
    case Done(_) => s
  }

  function Next(s: Ingest, e: Event): Ingest {
    match e
    case Submit(i, key, event, internalId, now) =>
      if i in s.requests then s
      else
        var phase := if ValidateEvent(event, now).Some? then Done(BadRequest) else Claiming;
        s.(requests := s.requests[i := Request(key, event, internalId, now, phase)])
    case Advance(i, up) => if i in s.requests then NextPhase(s, i, up) else s
    case Expire(key) => s.(keys := s.keys - {key}, holder := s.holder - {key})
  }

  function NextAll(s: Ingest, events: seq<Event>): Ingest
    decreases |events|
  {
    if events == [] then s else NextAll(Next(s, events[0]), events[1..])
  }

  const START := Ingest(map[], {}, [], map[], map[])

  // ----- Accepted means queued, in every interleaving and with every failure -----

  predicate Queued(s: Ingest, id: InternalId) {
    exists m <- s.stream :: m.internalId == id
  }

  predicate RequestOk(s: Ingest, r: Request) {
    && (r.phase == Done(BadRequest) || ValidateEvent(r.event, r.receivedAt) == None)
    && (r.phase.Queueing? || r.phase.Caching? ==> (r.event.eventId, r.event.source) in s.rows)
    && (r.phase.Caching? ==> Queued(s, r.internalId))
    && (r.phase.Done? && r.phase.reply.Accepted? ==> Queued(s, r.phase.reply.id))
  }

  predicate MessageOk(s: Ingest, m: Message) {
    && (m.event.eventId, m.event.source) in s.rows
    && exists i <- s.requests ::
         s.requests[i].event == m.event && ValidateEvent(m.event, s.requests[i].receivedAt) == None
  }

  ghost predicate IngestOk(s: Ingest) {
    && (forall k <- s.keys :: s.keys[k].Response? ==> Queued(s, s.keys[k].id))
    && (forall i <- s.requests :: RequestOk(s, s.requests[i]))
    && (forall m <- s.stream :: MessageOk(s, m))
  }

  lemma QueuedGrows(s: Ingest, t: Ingest, id: InternalId)
    requires s.stream <= t.stream && Queued(s, id)
    ensures Queued(t, id)
  {
    var m :| m in s.stream && m.internalId == id;
    assert m in t.stream;
  }

  lemma NextOk(s: Ingest, e: Event)
    requires IngestOk(s)
    ensures IngestOk(Next(s, e))
  {
    hide Queued, ValidateEvent;
    var t := Next(s, e);
    assert s.stream <= t.stream && s.rows <= t.rows;
    if e.Advance? && e.i in s.requests && s.requests[e.i].phase.Queueing? && e.up {
      NewMessage(s, e.i);
    }
    forall k <- t.keys | t.keys[k].Response? ensures Queued(t, t.keys[k].id) {
      if k in s.keys && s.keys[k] == t.keys[k] { QueuedGrows(s, t, s.keys[k].id); } else {
        QueuedGrows(s, t, s.requests[e.i].internalId);
      }
    }
    forall i <- t.requests ensures RequestOk(t, t.requests[i]) { NextRequestOk(s, e, i); }
    forall m <- t.stream ensures MessageOk(t, m) {
      if m in s.stream { MessageStays(s, e, m); }
    }
  }

  lemma NewMessage(s: Ingest, i: RequestId)
    requires IngestOk(s) && i in s.requests && s.requests[i].phase.Queueing?
    ensures var t := NextPhase(s, i, true);
            && Queued(t, s.requests[i].internalId)
            && MessageOk(t, t.stream[|s.stream|])
            && forall m <- t.stream :: m in s.stream || m == t.stream[|s.stream|]
  {
    var t, r := NextPhase(s, i, true), s.requests[i];
    var m := Message(r.key, r.internalId, r.event);
    assert t.stream == s.stream + [m] && m in t.stream;
    assert RequestOk(s, r);
    assert i in t.requests && t.requests[i].event == m.event;
  }

  lemma RequestStays(s: Ingest, e: Event, i: RequestId)
    requires i in s.requests
    ensures i in Next(s, e).requests
    ensures Next(s, e).requests[i] == s.requests[i].(phase := Next(s, e).requests[i].phase)
    ensures s.rows <= Next(s, e).rows && s.stream <= Next(s, e).stream
    ensures !(e.Advance? && e.i == i) ==> Next(s, e).requests[i] == s.requests[i]
  {
    hide ValidateEvent, NextPhase;
    if e.Advance? && e.i in s.requests { PhaseStays(s, e.i, e.up, i); }
  }

  lemma PhaseStays(s: Ingest, j: RequestId, up: bool, i: RequestId)
    requires i in s.requests && j in s.requests
    ensures var t := NextPhase(s, j, up);
            && i in t.requests && t.requests[i] == s.requests[i].(phase := t.requests[i].phase)
            && s.rows <= t.rows && s.stream <= t.stream
            && (i != j ==> t.requests[i] == s.requests[i])
  {
    hide ValidateEvent;
    var m := Message(s.requests[j].key, s.requests[j].internalId, s.requests[j].event);
    assert s.stream <= s.stream + [m];
  }

  lemma MessageStays(s: Ingest, e: Event, m: Message)
    requires IngestOk(s) && m in s.stream
    ensures MessageOk(Next(s, e), m)
  {
    hide Next, ValidateEvent, RequestOk, Queued;
    assert MessageOk(s, m);
    var i :| i in s.requests && s.requests[i].event == m.event
             && ValidateEvent(m.event, s.requests[i].receivedAt) == None;
    RequestStays(s, e, i);
  }

  lemma OtherRequestOk(s: Ingest, t: Ingest, r: Request)
    requires RequestOk(s, r) && s.stream <= t.stream && s.rows <= t.rows
    ensures RequestOk(t, r)
  {
    hide Queued, ValidateEvent;
    if r.phase.Caching? { QueuedGrows(s, t, r.internalId); }
    if r.phase.Done? && r.phase.reply.Accepted? { QueuedGrows(s, t, r.phase.reply.id); }
  }

  lemma NextRequestOk(s: Ingest, e: Event, i: RequestId)
    requires IngestOk(s) && i in Next(s, e).requests
    ensures RequestOk(Next(s, e), Next(s, e).requests[i])
  {
    hide Queued, ValidateEvent, MessageOk, NextPhase;
    var t := Next(s, e);
    if i in s.requests {
      assert RequestOk(s, s.requests[i]);
      RequestStays(s, e, i);
      if e.Advance? && e.i == i { AdvancedOk(s, i, e.up); } else { OtherRequestOk(s, t, s.requests[i]); }
    } else {
      if e.Advance? && e.i in s.requests { AdvanceAddsNone(s, e.i, e.up); }
    }
  }

  lemma AdvanceAddsNone(s: Ingest, i: RequestId, up: bool)
    requires i in s.requests
    ensures NextPhase(s, i, up).requests.Keys == s.requests.Keys
  {}

  lemma AdvancedOk(s: Ingest, i: RequestId, up: bool)
    requires IngestOk(s) && i in s.requests
    ensures RequestOk(NextPhase(s, i, up), NextPhase(s, i, up).requests[i])
  {
    hide Queued, ValidateEvent, MessageOk;
    var t, r := NextPhase(s, i, up), s.requests[i];
    assert RequestOk(s, r);
    match r.phase
    case Reading => if r.key in s.keys && s.keys[r.key].Response? { QueuedGrows(s, t, s.keys[r.key].id); }
    case Queueing => if up { NewMessage(s, i); }
    case Caching => QueuedGrows(s, t, r.internalId);
    case Done(_) =>
    case _ =>
  }

  lemma {:induction false} NextAllOk(s: Ingest, events: seq<Event>)
    requires IngestOk(s)
    ensures IngestOk(NextAll(s, events))
    decreases |events|
  {
    hide Next, IngestOk;
    if events == [] {
    } else {
      NextOk(s, events[0]);
      NextAllOk(Next(s, events[0]), events[1..]);
    }
  }

  /** In every interleaving of any number of requests, with any store failures and expiries:
      whoever is answered "accepted" is given an internal id that is in the stream, and every
      message in the stream has its events row and passed validation. */
  lemma AcceptedMeansQueued(events: seq<Event>)
    ensures var s := NextAll(START, events);
            && (forall i <- s.requests ::
                  s.requests[i].phase.Done? && s.requests[i].phase.reply.Accepted? ==>
                    exists m <- s.stream :: m.internalId == s.requests[i].phase.reply.id)
            && (forall m <- s.stream ::
                  && (m.event.eventId, m.event.source) in s.rows
                  && Decode(m.event).Some? && m.event.amount >= 0 && m.event.fee >= 0)
  {
    hide NextAll, ValidateEvent;
    NextAllOk(START, events);
    var s := NextAll(START, events);
    forall i <- s.requests | s.requests[i].phase.Done? && s.requests[i].phase.reply.Accepted?
      ensures exists m <- s.stream :: m.internalId == s.requests[i].phase.reply.id
    {
      assert RequestOk(s, s.requests[i]);
    }
    forall m <- s.stream
      ensures (m.event.eventId, m.event.source) in s.rows
      ensures Decode(m.event).Some? && m.event.amount >= 0 && m.event.fee >= 0
    {
      assert MessageOk(s, m);
      var i :| i in s.requests && ValidateEvent(m.event, s.requests[i].receivedAt) == None;
      ValidIff(m.event, s.requests[i].receivedAt);
    }
  }

  /** A window whose events were all accepted by the ingestor never wraps, so a match means
      that the merchant's amount is the bank's plus the gateway's fee, exactly. */
  lemma AcceptedWindowsBalance(w: Window, raw: map<Source, RawEvent>, now: map<Source, int>)
    requires Merchant in w.events && Gateway in w.events && Bank in w.events
    requires forall src <- w.events :: src in raw && src in now && ValidateEvent(raw[src], now[src]) == None
                                       && w.events[src].amount == raw[src].amount && w.events[src].fee == raw[src].fee
    ensures var m, g, b := w.events[Merchant], w.events[Gateway], w.events[Bank];
            && I64_MIN <= g.amount - g.fee <= I64_MAX && I64_MIN <= g.amount - m.amount <= I64_MAX
            && (CheckInvariants(w).Matched? <==>
                  m.currency == g.currency == b.currency && m.amount == g.amount && m.amount == b.amount + g.fee)
  {
    hide ValidateEvent;
    CompleteMeansAllThree(w);
    ValidIff(raw[Gateway], now[Gateway]);
    ValidIff(raw[Merchant], now[Merchant]);
  }

  // ----- One append for each key -----

  /** The key's holder answered 500 and could not delete the key. */
  predicate Stuck(s: Ingest, key: Key) {
    && key in s.keys && key in s.holder && s.holder[key] in s.requests
    && s.requests[s.holder[key]].phase == Done(ServerError)
  }

  /** The two ways past the key: it expires, unless it only was in the way, or the request reads
      an empty value after losing SETNX, because GET fails or the key was deleted in between. */
  predicate FallsThrough(s: Ingest, e: Event) {
    match e
    case Submit(_, _, _, _, _) => false
    case Advance(i, up) =>
      i in s.requests && s.requests[i].phase == Reading && (!up || s.requests[i].key !in s.keys)
    case Expire(key) => key in s.keys && !Stuck(s, key)
  }

  predicate NoneFallsThrough(s: Ingest, events: seq<Event>)
    decreases |events|
  {
    events == [] || (!FallsThrough(s, events[0]) && NoneFallsThrough(Next(s, events[0]), events[1..]))
  }

  function Appends(stream: seq<Message>, key: Key): seq<InternalId> {
    if stream == [] then []
    else
      var last := stream[|stream| - 1];
      Appends(stream[..|stream| - 1], key) + (if last.key == key then [last.internalId] else [])
  }

  /** What is known of a key that nobody has claimed, and of one that a request holds. */
  predicate KeyOk(s: Ingest, key: Key) {
    if key !in s.keys then key !in s.holder && Appends(s.stream, key) == []
    else
      && key in s.holder && s.holder[key] in s.requests
      && var h := s.requests[s.holder[key]];
         && h.key == key
         && (match h.phase
             case Persisting => s.keys[key] == Processing && Appends(s.stream, key) == []
             case Queueing => s.keys[key] == Processing && Appends(s.stream, key) == []
             case Releasing => s.keys[key] == Processing && Appends(s.stream, key) == []
             case Caching => s.keys[key] == Processing && Appends(s.stream, key) == [h.internalId]
             case Done(reply) =>
               if reply == ServerError then s.keys[key] == Processing && Appends(s.stream, key) == []
               else reply == Accepted(h.internalId) && Appends(s.stream, key) == [h.internalId]
                    && s.keys[key] in {Processing, Response(h.internalId)}
             case _ => false)
  }

  predicate HoldsKey(s: Ingest, i: RequestId)
    requires i in s.requests
  {
    s.requests[i].key in s.holder && s.holder[s.requests[i].key] == i
  }

  /** Only the holder of a key is past the claim; whoever is accepted got the appended id. */
  predicate OnlyHolder(s: Ingest, i: RequestId)
    requires i in s.requests
  {
    var r := s.requests[i];
    match r.phase
    case Claiming => !HoldsKey(s, i)
    case Reading => !HoldsKey(s, i)
    case Done(reply) =>
      && (reply.Accepted? ==> Appends(s.stream, r.key) == [reply.id])
      && (HoldsKey(s, i) ==> reply.ServerError? || reply.Accepted?)
    case _ => HoldsKey(s, i)
  }

  ghost predicate HeldOk(s: Ingest) {
    && (forall key: Key :: KeyOk(s, key))
    && (forall i <- s.requests :: OnlyHolder(s, i))
    && (forall key <- s.holder :: s.holder[key] in s.requests && key in s.keys)
  }

  lemma AppendsSnoc(stream: seq<Message>, m: Message, key: Key)
    ensures Appends(stream + [m], key) == Appends(stream, key) + (if m.key == key then [m.internalId] else [])
  {
    assert (stream + [m])[..|stream|] == stream;
  }

  lemma AppendsAfter(s: Ingest, i: RequestId, up: bool, key: Key)
    requires i in s.requests
    ensures Appends(NextPhase(s, i, up).stream, key) ==
            Appends(s.stream, key) +
            (if s.requests[i].phase == Queueing && up && s.requests[i].key == key then [s.requests[i].internalId]
             else [])
  {
    hide Appends;
    var r := s.requests[i];
    AppendsSnoc(s.stream, Message(r.key, r.internalId, r.event), key);
    assert Appends(s.stream, key) + [] == Appends(s.stream, key);
  }

  lemma NextKeyOk(s: Ingest, e: Event, key: Key)
    requires HeldOk(s) && !FallsThrough(s, e)
    ensures KeyOk(Next(s, e), key)
  {
    hide Appends, ValidateEvent, NextPhase;
    assert KeyOk(s, key);
    if e.Advance? && e.i in s.requests {
      assert OnlyHolder(s, e.i) && KeyOk(s, s.requests[e.i].key);
      AdvanceKeyOk(s, e.i, e.up, key);
    }
  }

  lemma AdvanceKeyOk(s: Ingest, i: RequestId, up: bool, key: Key)
    requires i in s.requests && !FallsThrough(s, Advance(i, up))
    requires KeyOk(s, key) && OnlyHolder(s, i) && KeyOk(s, s.requests[i].key)
    ensures KeyOk(NextPhase(s, i, up), key)
  {
    hide Appends, ValidateEvent;
    AppendsAfter(s, i, up, key);
  }

  lemma AdvanceSelf(s: Ingest, i: RequestId, up: bool)
    requires HeldOk(s) && i in s.requests && !FallsThrough(s, Advance(i, up))
    ensures OnlyHolder(NextPhase(s, i, up), i)
  {
    hide Appends, ValidateEvent;
    assert OnlyHolder(s, i) && KeyOk(s, s.requests[i].key);
    AppendsAfter(s, i, up, s.requests[i].key);
  }

  lemma AdvanceOther(s: Ingest, j: RequestId, up: bool, i: RequestId)
    requires HeldOk(s) && j in s.requests && i in s.requests && i != j && !FallsThrough(s, Advance(j, up))
    ensures OnlyHolder(NextPhase(s, j, up), i)
  {
    hide Appends, ValidateEvent;
    assert OnlyHolder(s, i) && OnlyHolder(s, j);
    assert KeyOk(s, s.requests[i].key);
    AppendsAfter(s, j, up, s.requests[i].key);
    OthersStay(s, j, up, i);
  }

  lemma OthersStay(s: Ingest, j: RequestId, up: bool, i: RequestId)
    requires j in s.requests && i in s.requests && i != j
    ensures var t := NextPhase(s, j, up);
            && t.requests.Keys == s.requests.Keys && t.requests[i] == s.requests[i]
            && forall k <- s.holder | k != s.requests[j].key :: k in t.holder && t.holder[k] == s.holder[k]
  {}

  lemma NextHolder(s: Ingest, e: Event, i: RequestId)
    requires HeldOk(s) && !FallsThrough(s, e) && i in Next(s, e).requests
    ensures OnlyHolder(Next(s, e), i)
  {
    hide Appends, ValidateEvent, NextPhase;
    match e
    case Advance(j, up) =>
      if j in s.requests {
        AdvanceAddsNone(s, j, up);
        if i == j { AdvanceSelf(s, i, up); } else { AdvanceOther(s, j, up, i); }
      } else {
        assert OnlyHolder(s, i);
      }
    case Submit(_, key, _, _, _) => if i in s.requests { assert OnlyHolder(s, i); }
    case Expire(key) =>
      assert OnlyHolder(s, i);
      assert KeyOk(s, key);
  }

  lemma NextHeld(s: Ingest, e: Event)
    requires HeldOk(s) && !FallsThrough(s, e)
    ensures HeldOk(Next(s, e))
  {
    hide Appends, ValidateEvent, KeyOk, OnlyHolder;
    var t := Next(s, e);
    forall key: Key ensures KeyOk(t, key) { NextKeyOk(s, e, key); }
    forall i <- t.requests ensures OnlyHolder(t, i) { NextHolder(s, e, i); }
  }

  lemma {:induction false} NextAllHeld(s: Ingest, events: seq<Event>)
    requires HeldOk(s) && NoneFallsThrough(s, events)
    ensures HeldOk(NextAll(s, events))
    decreases |events|
  {
    hide Next, HeldOk, FallsThrough;
    if events == [] {
    } else {
      NextHeld(s, events[0]);
      NextAllHeld(Next(s, events[0]), events[1..]);
    }
  }

  lemma StartHeld()
    ensures HeldOk(START)
  {}

  /** Whatever else fails, as long as nothing falls through: a key leads
      to at most one append to the stream however many requests carry it, and every request
      with that key that is accepted is given the id of that append. */
  lemma OneAppendUnlessFallThrough(events: seq<Event>, key: Key)
    requires NoneFallsThrough(START, events)
    ensures var s := NextAll(START, events);
            && |Appends(s.stream, key)| <= 1
            && forall i <- s.requests ::
                 var r := s.requests[i];
                 r.key == key && r.phase.Done? && r.phase.reply.Accepted? ==>
                   Appends(s.stream, key) == [r.phase.reply.id]
  {
    hide NextAll, Appends;
    StartHeld();
    NextAllHeld(START, events);
    var s := NextAll(START, events);
    assert KeyOk(s, key);
    forall i <- s.requests
      ensures var r := s.requests[i];
              r.key == key && r.phase.Done? && r.phase.reply.Accepted? ==> Appends(s.stream, key) == [r.phase.reply.id]
    {
      assert OnlyHolder(s, i);
    }
  }

  predicate Smooth(e: Event) {
    match e case Submit(_, _, _, _, _) => true case Advance(_, up) => up case Expire(_) => false
  }

  /** Without store failures a key stays once it is set, so whoever reads it finds it. */
  ghost predicate KeysStay(s: Ingest) {
    forall i <- s.requests ::
      !s.requests[i].phase.Releasing? && (s.requests[i].phase.Reading? ==> s.requests[i].key in s.keys)
  }

  lemma {:induction false} SmoothNeverFallsThrough(s: Ingest, events: seq<Event>)
    requires KeysStay(s) && forall e <- events :: Smooth(e)
    ensures NoneFallsThrough(s, events)
    decreases |events|
  {
    if events == [] {
    } else {
      assert events[0] in events;
      assert KeysStay(Next(s, events[0])) by { hide ValidateEvent; }
      SmoothNeverFallsThrough(Next(s, events[0]), events[1..]);
    }
  }

  /** Without store failures, within the 24 hours, one key leads to at most one append and one
      internal id. */
  lemma OneAppendPerKey(events: seq<Event>, key: Key)
    requires forall e <- events :: Smooth(e)
    ensures var s := NextAll(START, events);
            && |Appends(s.stream, key)| <= 1
            && forall i <- s.requests ::
                 var r := s.requests[i];
                 r.key == key && r.phase.Done? && r.phase.reply.Accepted? ==>
                   Appends(s.stream, key) == [r.phase.reply.id]
  {
    SmoothNeverFallsThrough(START, events);
    OneAppendUnlessFallThrough(events, key);
  }

  // ----- A fall-through costs the promise of one append -----

  /** Request 1 fails to persist and deletes the key between request 2's SETNX and GET. Request
      2 reads nothing, goes on without holding the key, and request 3 claims it anew: both
      append. */
  lemma FailureAppendsTwice(key: Key, event: RawEvent, now: int)
    requires ValidateEvent(event, now) == None
    ensures var arrive := [Submit(1, key, event, 1, now), Submit(2, key, event, 2, now), Submit(3, key, event, 3, now)];
            var lose := [Advance(1, true), Advance(2, true), Advance(1, false), Advance(1, true)];
            var append := [Advance(2, true), Advance(3, true), Advance(2, true), Advance(3, true),
                           Advance(2, true), Advance(3, true)];
            Appends(NextAll(NextAll(NextAll(START, arrive), lose), append).stream, key) == [2, 3]
  {
    hide Next, ValidateEvent, Appends;
    var arrive := [Submit(1, key, event, 1, now), Submit(2, key, event, 2, now), Submit(3, key, event, 3, now)];
    var lose := [Advance(1, true), Advance(2, true), Advance(1, false), Advance(1, true)];
    var append := [Advance(2, true), Advance(3, true), Advance(2, true), Advance(3, true),
                   Advance(2, true), Advance(3, true)];
    Arrive(key, event, now);
    Three(START, arrive);
    var s1 := NextAll(START, arrive);
    Lose(s1, key, event);
    Four(s1, lose);
    var s2 := NextAll(s1, lose);
    AppendBoth(s2, key, event);
    assert append == append[..3] + append[3..];
    Three(s2, append[..3]);
    Three(NextAll(s2, append[..3]), append[3..]);
    NextAllConcat(s2, append[..3], append[3..]);
  }

  // ----- Every fall-through can cost it -----

  lemma NextAllTwo(s: Ingest, a: Event, b: Event)
    ensures NextAll(s, [a, b]) == Next(Next(s, a), b)
  {
    hide Next;
    assert [a, b][1..] == [b] && [b][1..] == [];
    assert NextAll(Next(s, a), [b]) == NextAll(Next(Next(s, a), b), []);
  }

  function PushThrough(i: RequestId): seq<Event> {
    [Advance(i, true), Advance(i, true)]
  }

  /** A request past the key appends its message in two commands and disturbs no other. */
  lemma PushedThrough(s: Ingest, i: RequestId)
    requires i in s.requests && s.requests[i].phase == Persisting
    ensures var t, key := NextAll(s, PushThrough(i)), s.requests[i].key;
            && Appends(t.stream, key) == Appends(s.stream, key) + [s.requests[i].internalId]
            && t.keys == s.keys
            && forall j <- s.requests | j != i :: j in t.requests && t.requests[j] == s.requests[j]
  {
    hide Appends;
    NextAllTwo(s, Advance(i, true), Advance(i, true));
    AppendsAfter(s, i, true, s.requests[i].key);
    AppendsAfter(Next(s, Advance(i, true)), i, true, s.requests[i].key);
    assert Appends(s.stream, s.requests[i].key) + [] == Appends(s.stream, s.requests[i].key);
  }

  /** Two requests past one key: together they append twice. */
  lemma BothAppend(s: Ingest, i: RequestId, j: RequestId)
    requires i in s.requests && j in s.requests && i != j && s.requests[i].key == s.requests[j].key
    requires s.requests[i].phase == Persisting && s.requests[j].phase == Persisting
    ensures |Appends(NextAll(s, PushThrough(i) + PushThrough(j)).stream, s.requests[i].key)| ==
            |Appends(s.stream, s.requests[i].key)| + 2
  {
    hide Appends, PushThrough, NextAll;
    PushedThrough(s, i);
    PushedThrough(NextAll(s, PushThrough(i)), j);
    NextAllConcat(s, PushThrough(i), PushThrough(j));
  }

  /** With the key gone, a new request claims it beside the one that fell through. */
  lemma NewcomerAppends(s: Ingest, i: RequestId, late: Event) returns (more: seq<Event>)
    requires i in s.requests && s.requests[i].phase == Persisting && s.requests[i].key !in s.keys
    requires late.Submit? && late.i !in s.requests && late.key == s.requests[i].key
    requires ValidateEvent(late.event, late.now) == None
    ensures forall e <- more :: Smooth(e)
    ensures |Appends(NextAll(s, more).stream, s.requests[i].key)| == |Appends(s.stream, s.requests[i].key)| + 2
  {
    hide Appends, ValidateEvent, NextAll;
    var enter := [late, Advance(late.i, true)];
    NextAllTwo(s, late, Advance(late.i, true));
    var t := NextAll(s, enter);
    assert t.stream == s.stream && t.requests[late.i].phase == Persisting && t.requests[i] == s.requests[i];
    BothAppend(t, late.i, i);
    more := enter + (PushThrough(late.i) + PushThrough(i));
    NextAllConcat(s, enter, PushThrough(late.i) + PushThrough(i));
  }

  lemma PhaseIs(s: Ingest, i: RequestId, e: Event)
    requires HeldOk(s) && e.Advance? && e.i == i && i in s.requests && FallsThrough(s, e)
    ensures var t, key := Next(s, e), s.requests[i].key;
            && i in t.requests && t.requests[i] == s.requests[i].(phase := Persisting)
            && t.keys == s.keys && t.stream == s.stream && t.holder == s.holder
            && (forall j <- s.requests | j != i :: j in t.requests && t.requests[j] == s.requests[j])
            && t.requests.Keys == s.requests.Keys
            && KeyOk(s, key) && !(key in s.holder && s.holder[key] == i)
  {
    hide Appends;
    assert OnlyHolder(s, i) && KeyOk(s, s.requests[i].key);
  }

  lemma TwoAppendsFollow(s: Ingest, e: Event, late: Event) returns (more: seq<Event>)
    requires HeldOk(s) && e.Advance? && e.i in s.requests && FallsThrough(s, e)
    requires !Stuck(s, s.requests[e.i].key)
    requires late.Submit? && late.i !in s.requests && late.key == s.requests[e.i].key
    requires ValidateEvent(late.event, late.now) == None
    ensures forall x <- more :: Smooth(x)
    ensures |Appends(NextAll(Next(s, e), more).stream, s.requests[e.i].key)| == 2
  {
    hide Appends, ValidateEvent, NextAll, Next, NextPhase, HeldOk, FallsThrough;
    var i, key, t := e.i, s.requests[e.i].key, Next(s, e);
    PhaseIs(s, i, e);
    if key !in s.keys {
      more := NewcomerAppends(t, i, late);
    } else {
      var h := s.holder[key];
      match s.requests[h].phase
      case Persisting =>
        BothAppend(t, h, i);
        more := PushThrough(h) + PushThrough(i);
      case Queueing =>
        HolderQueues(t, h);
        var u := Next(t, Advance(h, true));
        PushedThrough(u, i);
        more := [Advance(h, true)] + PushThrough(i);
        NextAllConcat(t, [Advance(h, true)], PushThrough(i));
        NextAllOne(t, Advance(h, true));
      case Releasing =>
        HolderReleases(t, h);
        var u := Next(t, Advance(h, true));
        var rest := NewcomerAppends(u, i, late);
        more := [Advance(h, true)] + rest;
        NextAllConcat(t, [Advance(h, true)], rest);
        NextAllOne(t, Advance(h, true));
      case _ =>
        PushedThrough(t, i);
        more := PushThrough(i);
    }
  }

  /** Under a stuck key only `i` is past the key, and it appends at most once. */
  ghost predicate Alone(s: Ingest, key: Key, i: RequestId) {
    && key in s.keys && i in s.requests && s.requests[i].key == key
    && (forall j <- s.requests | j != i && s.requests[j].key == key ::
          s.requests[j].phase.Claiming? || s.requests[j].phase.Reading? || s.requests[j].phase.Done?)
    && (match s.requests[i].phase
        case Persisting => Appends(s.stream, key) == []
        case Queueing => Appends(s.stream, key) == []
        case Caching => |Appends(s.stream, key)| == 1
        case Done(_) => |Appends(s.stream, key)| == 1
        case _ => false)
  }

  lemma AloneStep(s: Ingest, key: Key, i: RequestId, e: Event)
    requires Alone(s, key, i) && Smooth(e)
    ensures Alone(Next(s, e), key, i)
  {
    hide Appends, ValidateEvent;
    if e.Advance? && e.i in s.requests {
      AppendsAfter(s, e.i, true, key);
      assert Appends(s.stream, key) + [] == Appends(s.stream, key);
    }
  }

  lemma {:induction false} AloneAppendsOnce(s: Ingest, key: Key, i: RequestId, more: seq<Event>)
    requires Alone(s, key, i) && forall e <- more :: Smooth(e)
    ensures |Appends(NextAll(s, more).stream, key)| <= 1
    decreases |more|
  {
    hide Appends, Next, Smooth;
    if more == [] {
    } else {
      assert more[0] in more;
      AloneStep(s, key, i, more[0]);
      AloneAppendsOnce(Next(s, more[0]), key, i, more[1..]);
    }
  }

  lemma StuckIsAlone(s: Ingest, e: Event)
    requires HeldOk(s) && e.Advance? && e.i in s.requests && FallsThrough(s, e)
    requires Stuck(s, s.requests[e.i].key)
    ensures Alone(Next(s, e), s.requests[e.i].key, e.i)
  {
    hide Appends, Next, FallsThrough;
    PhaseIs(s, e.i, e);
    var key, t := s.requests[e.i].key, Next(s, e);
    forall j <- t.requests | j != e.i && t.requests[j].key == key
      ensures t.requests[j].phase.Claiming? || t.requests[j].phase.Reading? || t.requests[j].phase.Done?
    {
      assert OnlyHolder(s, j);
    }
  }

  /** Whenever a request falls through, failure-free commands can follow that append twice under
      its key, exactly unless the key is stuck. `late` is a further request with the same key. */
  lemma FallThroughAppendsTwiceIff(s: Ingest, e: Event, late: Event)
    requires HeldOk(s) && e.Advance? && e.i in s.requests && FallsThrough(s, e)
    requires late.Submit? && late.i !in s.requests && late.key == s.requests[e.i].key
    requires ValidateEvent(late.event, late.now) == None
    ensures (exists more: seq<Event> ::
               (forall x <- more :: Smooth(x)) && |Appends(NextAll(Next(s, e), more).stream, s.requests[e.i].key)| >= 2)
            <==> !Stuck(s, s.requests[e.i].key)
  {
    hide Appends, ValidateEvent, NextAll, Next, HeldOk, FallsThrough, Stuck, Alone, Smooth;
    var key, t := s.requests[e.i].key, Next(s, e);
    if Stuck(s, key) {
      StuckIsAlone(s, e);
      forall more: seq<Event> | forall x <- more :: Smooth(x)
        ensures |Appends(NextAll(t, more).stream, key)| <= 1
      {
        AloneAppendsOnce(t, key, e.i, more);
      }
    } else {
      var more := TwoAppendsFollow(s, e, late);
      assert (forall x <- more :: Smooth(x)) && |Appends(NextAll(t, more).stream, key)| >= 2;
    }
  }

  lemma NextAllOne(s: Ingest, e: Event)
    ensures NextAll(s, [e]) == Next(s, e)
  {
    hide Next;
    assert NextAll(s, [e]) == NextAll(Next(s, e), [e][1..]);
  }

  lemma HolderQueues(s: Ingest, h: RequestId)
    requires h in s.requests && s.requests[h].phase == Queueing
    ensures var t, key := Next(s, Advance(h, true)), s.requests[h].key;
            && Appends(t.stream, key) == Appends(s.stream, key) + [s.requests[h].internalId]
            && forall j <- s.requests | j != h :: j in t.requests && t.requests[j] == s.requests[j]
  {
    hide Appends;
    AppendsAfter(s, h, true, s.requests[h].key);
  }

  lemma HolderReleases(s: Ingest, h: RequestId)
    requires h in s.requests && s.requests[h].phase == Releasing
    ensures var t, key := Next(s, Advance(h, true)), s.requests[h].key;
            && key !in t.keys && t.stream == s.stream && t.requests.Keys == s.requests.Keys
            && forall j <- s.requests | j != h :: t.requests[j] == s.requests[j]
  {}

  predicate Stands(s: Ingest, i: RequestId, key: Key, event: RawEvent, phase: Phase) {
    i in s.requests && s.requests[i].key == key && s.requests[i].event == event
    && s.requests[i].internalId == i && s.requests[i].phase == phase
  }

  lemma Arrive(key: Key, event: RawEvent, now: int)
    requires ValidateEvent(event, now) == None
    ensures var s := Next(Next(Next(START, Submit(1, key, event, 1, now)), Submit(2, key, event, 2, now)),
                          Submit(3, key, event, 3, now));
            && s.keys == map[] && s.stream == []
            && Stands(s, 1, key, event, Claiming) && Stands(s, 2, key, event, Claiming)
            && Stands(s, 3, key, event, Claiming)
  {
    hide ValidateEvent;
  }

  lemma Lose(s: Ingest, key: Key, event: RawEvent)
    requires s.keys == map[] && s.stream == []
    requires Stands(s, 1, key, event, Claiming) && Stands(s, 2, key, event, Claiming)
    requires Stands(s, 3, key, event, Claiming)
    ensures var t := Next(Next(Next(Next(s, Advance(1, true)), Advance(2, true)), Advance(1, false)), Advance(1, true));
            && t.keys == map[] && t.stream == []
            && Stands(t, 2, key, event, Reading) && Stands(t, 3, key, event, Claiming)
  {
    var s1 := Next(s, Advance(1, true));
    assert s1.keys == map[key := Processing] && Stands(s1, 1, key, event, Persisting);
    var s2 := Next(s1, Advance(2, true));
    assert s2.keys == map[key := Processing] && Stands(s2, 2, key, event, Reading);
    var s3 := Next(s2, Advance(1, false));
    assert Stands(s3, 1, key, event, Releasing);
    assert map[key := Processing] - {key} == map[];
  }

  lemma AppendBoth(s: Ingest, key: Key, event: RawEvent)
    requires s.keys == map[] && s.stream == []
    requires Stands(s, 2, key, event, Reading) && Stands(s, 3, key, event, Claiming)
    ensures var t := Next(Next(Next(s, Advance(2, true)), Advance(3, true)), Advance(2, true));
            Appends(Next(Next(Next(t, Advance(3, true)), Advance(2, true)), Advance(3, true)).stream, key) == [2, 3]
  {
    hide Appends;
    var s1 := Next(s, Advance(2, true));
    assert Stands(s1, 2, key, event, Persisting) && Stands(s1, 3, key, event, Claiming) && s1.keys == map[];
    var s2 := Next(s1, Advance(3, true));
    assert Stands(s2, 2, key, event, Persisting) && Stands(s2, 3, key, event, Persisting);
    var s3 := Next(s2, Advance(2, true));
    assert Stands(s3, 2, key, event, Queueing) && Stands(s3, 3, key, event, Persisting) && s3.stream == [];
    var s4 := Next(s3, Advance(3, true));
    assert Stands(s4, 2, key, event, Queueing) && Stands(s4, 3, key, event, Queueing) && s4.stream == [];
    TwoMessages(s4, key, event);
  }

  lemma NoAppends(key: Key)
    ensures Appends([], key) == []
  {}

  lemma TwoMessages(s: Ingest, key: Key, event: RawEvent)
    requires s.stream == [] && Stands(s, 2, key, event, Queueing) && Stands(s, 3, key, event, Queueing)
    ensures Appends(Next(Next(s, Advance(2, true)), Advance(3, true)).stream, key) == [2, 3]
  {
    hide Appends, ValidateEvent;
    AppendsAfter(s, 2, true, key);
    AppendsAfter(Next(s, Advance(2, true)), 3, true, key);
    assert Appends([], key) == [] by { NoAppends(key); }
  }

  lemma {:induction false} NextAllConcat(s: Ingest, a: seq<Event>, b: seq<Event>)
    ensures NextAll(s, a + b) == NextAll(NextAll(s, a), b)
    decreases |a|
  {
    hide Next;
    if a == [] {
      assert a + b == b;
    } else {
      assert (a + b)[1..] == a[1..] + b;
      NextAllConcat(Next(s, a[0]), a[1..], b);
    }
  }

  lemma Three(s: Ingest, e: seq<Event>)
    requires |e| == 3
    ensures NextAll(s, e) == Next(Next(Next(s, e[0]), e[1]), e[2])
  {
    hide Next;
    assert e[1..][1..] == e[2..] && e[2..][1..] == [];
    var s1 := Next(s, e[0]);
    var s2 := Next(s1, e[1]);
    assert NextAll(s2, e[2..]) == NextAll(Next(s2, e[2]), []);
    assert NextAll(s1, e[1..]) == NextAll(s2, e[2..]);
  }

  lemma Four(s: Ingest, e: seq<Event>)
    requires |e| == 4
    ensures NextAll(s, e) == Next(Next(Next(Next(s, e[0]), e[1]), e[2]), e[3])
  {
    hide Next;
    Three(Next(s, e[0]), e[1..]);
  }
}
