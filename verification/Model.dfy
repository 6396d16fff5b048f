/** matcher/src/model.rs: payment events, reconciliation windows, the verdict on a
    complete window and the per-source detail rows. */
module Model {
  import opened Wrappers

  // Uuids are only compared for equality.
  type TxId = nat
  type EventId = nat

  const I64_MIN: int := -0x8000_0000_0000_0000
  const I64_MAX: int := 0x7FFF_FFFF_FFFF_FFFF

  type i64 = x: int | I64_MIN <= x <= I64_MAX

  /** Signed 64-bit subtraction of a release build: it wraps around. */
  function Sub64(a: i64, b: i64): (d: i64)
    ensures I64_MIN <= a - b <= I64_MAX <==> d == a - b
    ensures (d - (a - b)) % 0x1_0000_0000_0000_0000 == 0
  {
    var exact := a - b;
    if exact > I64_MAX then exact - 0x1_0000_0000_0000_0000
    else if exact < I64_MIN then exact + 0x1_0000_0000_0000_0000
    else exact
  }

  datatype Source = Merchant | Gateway | Bank

  datatype PaymentEvent = PaymentEvent(
    eventId: EventId, tx: TxId, source: Source, amount: i64, fee: i64,
    currency: string, txType: string, merchantId: Option<string>)

  datatype Window = Window(
    tx: TxId, events: map<Source, PaymentEvent>, firstSeen: int, deadline: int, micros: int)

  function NewWindow(tx: TxId, firstSeen: int, timeoutMs: nat): Window {
    Window(tx, map[], firstSeen, firstSeen + timeoutMs, 0)
  }

  const EXPECTED_SOURCES := 3

  predicate IsComplete(w: Window) {
    |w.events| >= EXPECTED_SOURCES
  }

  function Without(events: map<Source, PaymentEvent>, src: Source): seq<Source> {
    if src in events then [] else [src]
  }

  /** Source::all lists the merchant, the gateway and the bank. */
  function SourceOrder(src: Source): nat {
    match src case Merchant => 0 case Gateway => 1 case Bank => 2
  }

  /** The sources that have not reported, in the order of Source::all. */
  function MissingSources(events: map<Source, PaymentEvent>): seq<Source> {
    Without(events, Merchant) + Without(events, Gateway) + Without(events, Bank)
  }

  datatype IncidentKind =
    AmountMismatch | FeeMismatch | CurrencyMismatch | MissingSource | Duplicate | SourceOffline

  /** `named` holds the sources that the incident's description names. */
  datatype Incident = Incident(tx: TxId, kind: IncidentKind, severity: int, named: seq<Source>)

  datatype Verdict = Matched | Mismatched(incidents: seq<Incident>)

  function CheckInvariants(w: Window): Verdict {
    if Merchant !in w.events || Gateway !in w.events || Bank !in w.events then Mismatched([])
    else
      var m, g, b := w.events[Merchant], w.events[Gateway], w.events[Bank];
      if !(m.currency == g.currency && g.currency == b.currency) then
        Mismatched([Incident(w.tx, CurrencyMismatch, 1, [Merchant, Gateway, Bank])])
      else
        var amount :=
          if g.amount != m.amount then [Incident(w.tx, AmountMismatch, 1, [Merchant, Gateway])] else [];
        var fee :=
          if b.amount != Sub64(g.amount, g.fee) then [Incident(w.tx, FeeMismatch, 1, [Gateway, Bank])] else [];
        if amount + fee == [] then Matched else Mismatched(amount + fee)
  }

  datatype Reason = CurrencyReason | MerchantAmountReason | GatewayConsistencyReason | BankAmountReason

  datatype Detail = Detail(
    source: Source, amountExpected: Option<i64>, amountActual: Option<i64>,
    feeExpected: Option<i64>, feeActual: Option<i64>, isMatched: bool, reason: Option<Reason>)

  predicate Both(events: map<Source, PaymentEvent>, a: Source, b: Source) {
    a in events && b in events
  }

  predicate CurrencyDiffers(events: map<Source, PaymentEvent>) {
    || (Both(events, Merchant, Gateway) && events[Merchant].currency != events[Gateway].currency)
    || (Both(events, Gateway, Bank) && events[Gateway].currency != events[Bank].currency)
    || (Both(events, Merchant, Bank) && events[Merchant].currency != events[Bank].currency)
  }

  predicate AmountDiffers(events: map<Source, PaymentEvent>) {
    Both(events, Merchant, Gateway) && events[Gateway].amount != events[Merchant].amount
  }

  predicate FeeDiffers(events: map<Source, PaymentEvent>) {
    Both(events, Gateway, Bank) &&
    events[Bank].amount != Sub64(events[Gateway].amount, events[Gateway].fee)
  }

  function AmountOf(events: map<Source, PaymentEvent>, src: Source): Option<i64> {
    if src in events then Some(events[src].amount) else None
  }

  function FeeOf(events: map<Source, PaymentEvent>, src: Source): Option<i64> {
    if src in events then Some(events[src].fee) else None
  }

  function ExpectedAtBank(events: map<Source, PaymentEvent>): Option<i64> {
    if Gateway in events then Some(Sub64(events[Gateway].amount, events[Gateway].fee)) else None
  }

  function MerchantDetail(events: map<Source, PaymentEvent>): seq<Detail> {
    if Merchant !in events then []
    else
      var expected, actual := AmountOf(events, Gateway), AmountOf(events, Merchant);
      [Detail(Merchant, expected, actual, Some(0), FeeOf(events, Merchant), expected == actual,
              if CurrencyDiffers(events) then Some(CurrencyReason)
              else if AmountDiffers(events) then Some(MerchantAmountReason)
              else None)]
  }

  function GatewayDetail(events: map<Source, PaymentEvent>): seq<Detail> {
    if Gateway !in events then []
    else
      var expected, actual := AmountOf(events, Merchant), AmountOf(events, Gateway);
      [Detail(Gateway, expected, actual, None, FeeOf(events, Gateway), expected == actual,
              if CurrencyDiffers(events) then Some(CurrencyReason)
              else if AmountDiffers(events) || FeeDiffers(events) then Some(GatewayConsistencyReason)
              else None)]
  }

  function BankDetail(events: map<Source, PaymentEvent>): seq<Detail> {
    if Bank !in events then []
    else
      var expected, actual := ExpectedAtBank(events), AmountOf(events, Bank);
      [Detail(Bank, expected, actual, None, FeeOf(events, Bank), expected == actual,
              if CurrencyDiffers(events) then Some(CurrencyReason)
              else if FeeDiffers(events) then Some(BankAmountReason)
              else None)]
  }

  function BuildDetails(w: Window): seq<Detail> {
    MerchantDetail(w.events) + GatewayDetail(w.events) + BankDetail(w.events)
  }

  lemma CountOne(keys: set<Source>, src: Source)
    ensures |keys| == (if src in keys then 1 else 0) + |keys - {src}|
  {
    if src !in keys { assert keys - {src} == keys; }
  }

  lemma CountSources(events: map<Source, PaymentEvent>)
    ensures |events| == (if Merchant in events then 1 else 0) + (if Gateway in events then 1 else 0) +
                        (if Bank in events then 1 else 0)
  {
    var keys := events.Keys;
    CountOne(keys, Merchant);
    CountOne(keys - {Merchant}, Gateway);
    CountOne(keys - {Merchant} - {Gateway}, Bank);
    var rest := keys - {Merchant} - {Gateway} - {Bank};
    if src :| src in rest {
      match src case Merchant => case Gateway => case Bank =>
    }
    assert rest == {};
    assert |events| == |keys|;
  }

  /** Three events are enough exactly because the map's keys are the three sources. */
  lemma CompleteMeansAllThree(w: Window)
    ensures IsComplete(w) <==> Merchant in w.events && Gateway in w.events && Bank in w.events
    ensures IsComplete(w) <==> MissingSources(w.events) == []
    ensures |MissingSources(w.events)| == EXPECTED_SOURCES - |w.events|
    ensures forall src :: src in MissingSources(w.events) <==> src !in w.events
    ensures var missing := MissingSources(w.events);
            forall i, j | 0 <= i < j < |missing| :: SourceOrder(missing[i]) < SourceOrder(missing[j])
  {
    CountSources(w.events);
    forall src ensures src in MissingSources(w.events) <==> src !in w.events {
      match src case Merchant => case Gateway => case Bank =>
    }
  }

  /** The verdict and the detail rows are computed by separate code; on every complete
      window they agree, and the verdict names the failing checks. */
  lemma CheckersAgree(w: Window)
    requires IsComplete(w)
    ensures var verdict, rows := CheckInvariants(w), BuildDetails(w);
            && |rows| == 3 && rows[0].source == Merchant && rows[1].source == Gateway && rows[2].source == Bank
            && (verdict.Matched? <==> forall row <- rows :: row.reason.None?)
            && (verdict.Mismatched? ==>
                  && 1 <= |verdict.incidents| <= 2
                  && (forall i <- verdict.incidents :: i.tx == w.tx && i.severity == 1)
                  && ((exists i <- verdict.incidents :: i.kind == CurrencyMismatch) <==>
                        rows[0].reason == rows[1].reason == rows[2].reason == Some(CurrencyReason))
                  && ((exists i <- verdict.incidents :: i.kind == CurrencyMismatch) ==> |verdict.incidents| == 1)
                  && ((exists i <- verdict.incidents :: i.kind == AmountMismatch) <==>
                        rows[0].reason == Some(MerchantAmountReason))
                  && ((exists i <- verdict.incidents :: i.kind == FeeMismatch) <==>
                        rows[2].reason == Some(BankAmountReason)))
  {
    RowReasons(w);
    VerdictFindings(w);
    hide BuildDetails, CheckInvariants, IsComplete, CurrencyDiffers, AmountDiffers, FeeDiffers;
    var rows, verdict := BuildDetails(w), CheckInvariants(w);
    assert rows[0] in rows && rows[1] in rows && rows[2] in rows;
    if verdict.Mismatched? {
      assert verdict.incidents[0] in verdict.incidents;
      if |verdict.incidents| == 2 { assert verdict.incidents[1] in verdict.incidents; }
    }
  }

  lemma RowReasons(w: Window)
    requires IsComplete(w)
    ensures var rows, e := BuildDetails(w), w.events;
            && |rows| == 3 && rows[0].source == Merchant && rows[1].source == Gateway && rows[2].source == Bank
            && rows[0].reason == (if CurrencyDiffers(e) then Some(CurrencyReason)
                                  else if AmountDiffers(e) then Some(MerchantAmountReason) else None)
            && rows[1].reason == (if CurrencyDiffers(e) then Some(CurrencyReason)
                                  else if AmountDiffers(e) || FeeDiffers(e) then Some(GatewayConsistencyReason)
                                  else None)
            && rows[2].reason == (if CurrencyDiffers(e) then Some(CurrencyReason)
                                  else if FeeDiffers(e) then Some(BankAmountReason) else None)
  {
    CompleteMeansAllThree(w);
    hide IsComplete, CurrencyDiffers, AmountDiffers, FeeDiffers;
    assert BuildDetails(w) == [MerchantDetail(w.events)[0], GatewayDetail(w.events)[0], BankDetail(w.events)[0]];
  }

  lemma VerdictFindings(w: Window)
    requires IsComplete(w)
    ensures var verdict, e := CheckInvariants(w), w.events;
            && (verdict.Matched? <==> !CurrencyDiffers(e) && !AmountDiffers(e) && !FeeDiffers(e))
            && (verdict.Mismatched? ==>
                  && (forall i <- verdict.incidents :: i.tx == w.tx && i.severity == 1)
                  && verdict.incidents ==
                       if CurrencyDiffers(e) then [Incident(w.tx, CurrencyMismatch, 1, [Merchant, Gateway, Bank])]
                       else (if AmountDiffers(e) then [Incident(w.tx, AmountMismatch, 1, [Merchant, Gateway])]
                             else []) +
                            (if FeeDiffers(e) then [Incident(w.tx, FeeMismatch, 1, [Gateway, Bank])] else []))
  {
    CompleteMeansAllThree(w);
  }

  /** The `is_matched` flags ignore the currency: all rows of a mismatched window are flagged
      as matched exactly when the currencies differ and nothing else does. */
  lemma FlagsMissCurrency(w: Window)
    requires IsComplete(w)
    ensures (CheckInvariants(w).Mismatched? && forall row <- BuildDetails(w) :: row.isMatched) <==>
            CurrencyDiffers(w.events) && !AmountDiffers(w.events) && !FeeDiffers(w.events)
  {
    CompleteMeansAllThree(w);
    var rows := BuildDetails(w);
    assert rows == [MerchantDetail(w.events)[0], GatewayDetail(w.events)[0], BankDetail(w.events)[0]];
    assert rows[0] in rows && rows[1] in rows && rows[2] in rows;
  }

  /** A matched window balances: what the merchant charged is what the bank received plus the
      gateway's fee, unless the gateway's subtraction left the i64 range. */
  lemma MatchedBalances(w: Window)
    requires IsComplete(w) && CheckInvariants(w).Matched?
    ensures var m, g, b := w.events[Merchant], w.events[Gateway], w.events[Bank];
            && m.currency == g.currency == b.currency
            && (m.amount == b.amount + g.fee <==> I64_MIN <= g.amount - g.fee <= I64_MAX)
  {
    CompleteMeansAllThree(w);
  }

  // ----- Examples -----

  function EventOf(source: Source, amount: i64, fee: i64, currency: string): PaymentEvent {
    PaymentEvent(0, 0, source, amount, fee, currency, "card", None)
  }

  function WindowOf(m: PaymentEvent, g: PaymentEvent, b: PaymentEvent): Window {
    Window(0, map[Merchant := m, Gateway := g, Bank := b], 0, 0, 0)
  }

  /** Three reports that differ in nothing but the bank's currency: a mismatch in which every row
      is flagged as matched. */
  lemma CurrencyFlaggedAsMatched()
    ensures var w := WindowOf(EventOf(Merchant, 100, 0, "UZS"), EventOf(Gateway, 100, 1, "UZS"),
                              EventOf(Bank, 99, 0, "USD"));
            CheckInvariants(w).Mismatched? && |BuildDetails(w)| == 3 && forall row <- BuildDetails(w) :: row.isMatched
  {
    var w := WindowOf(EventOf(Merchant, 100, 0, "UZS"), EventOf(Gateway, 100, 1, "UZS"), EventOf(Bank, 99, 0, "USD"));
    CompleteMeansAllThree(w);
    assert "UZS"[1] != "USD"[1];
    FlagsMissCurrency(w);
  }

  /** The gateway's subtraction wraps around: the least amount less a fee of one is the greatest
      amount, and a bank that reports that one matches. */
  lemma WrappedMatch()
    ensures var w := WindowOf(EventOf(Merchant, I64_MIN, 0, "UZS"), EventOf(Gateway, I64_MIN, 1, "UZS"),
                              EventOf(Bank, I64_MAX, 0, "UZS"));
            CheckInvariants(w).Matched? && w.events[Merchant].amount != w.events[Bank].amount + w.events[Gateway].fee
  {}
}
