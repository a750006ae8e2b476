/** The values that intents, orders, outcomes and audit records are made of. */
module Records {
  import opened Prelude
  import opened FixedDecimal
  import opened Timestamp

  /** Identity is `id`, and the protocol looks at `venueMic` besides; the other fields are those that
      an order carries into its record as the text of a timestamp or a decimal. */
  datatype Instrument = Instrument(
    id: string,
    venueMic: Option<string>,
    expiry: Option<UtcTimestamp>,
    strike: Option<Decimal>,
    contractMultiplier: Decimal,
    tickSize: Option<Decimal>,
    lotSize: Option<Decimal>)

  /** What `InstrumentId::equity` makes: no expiry, one unit a contract. */
  function Equity(id: string): Instrument { Instrument(id, None, None, None, Decimal(SCALE), None, None) }

  datatype Side = Buy | Sell | SellShort | BuyToCover {
    predicate IsBuySide() { Buy? || BuyToCover? }
  }

  /** Whether a side takes units in and pays for them, side by side. */
  predicate Purchases(side: Side) {
    match side
    case Buy => true
    case Sell => false
    case SellShort => false
    case BuyToCover => true
  }

  datatype OrderType =
    | Market | Limit | Stop | StopLimit | MarketOnClose | LimitOnClose
    | Peg | TrailingStop | MultiLeg | Other

  datatype IntentMode =
    | Observe | Advisory | Paper | PaperAutonomous | GuardedLive | GuardedLiveAutonomous
  {
    predicate RequestsPaperExecution() { Paper? || PaperAutonomous? }

    predicate RequestsLiveExecution() { GuardedLive? || GuardedLiveAutonomous? }
  }

  /** An f64: its comparisons are exact, and every comparison with NaN is false. */
  datatype Float = NaN | Infinity(negative: bool) | Finite(value: real)

  datatype TradeIntent = TradeIntent(
    intentId: string,
    accountAlias: string,
    instrument: Instrument,
    side: Side,
    orderType: OrderType,
    quantity: Decimal,
    limitPrice: Option<Decimal>,
    stopPrice: Option<Decimal>,
    expiresAt: Option<UtcTimestamp>,
    decisionTime: UtcTimestamp,
    confidence: Float,
    mode: IntentMode,
    idempotencyKey: string)

  datatype PolicyDecision =
    | Allow | AllowWithAdjustment | Reject | Expired | BlockedBySourcePolicy
    | BlockedByJurisdiction | BlockedByEntitlement | BlockedByMarketState | BlockedByRisk
    | BlockedByOperatorControl | UnknownPendingReconciliation
  {
    predicate PermitsSubmission() { Allow? || AllowWithAdjustment? }
  }

  /** The two texts a venue check can attach. */
  datatype Warning = VenueNotEffective(mic: string) | VenueNotConfigured(mic: string)

  datatype PolicyOutcome = PolicyOutcome(
    decision: PolicyDecision, reasonCodes: seq<string>, warnings: seq<Warning>)
  {
    predicate IsAllowed() { decision.PermitsSubmission() }

    function WithWarning(w: Warning): PolicyOutcome { this.(warnings := warnings + [w]) }
  }

  /** Which decisions let an order through, one by one. */
  lemma PermittingDecisions(d: PolicyDecision)
    ensures d.PermitsSubmission() <==>
      match d
      case Allow | AllowWithAdjustment => true
      case Reject | Expired | BlockedBySourcePolicy | BlockedByJurisdiction | BlockedByEntitlement => false
      case BlockedByMarketState | BlockedByRisk | BlockedByOperatorControl => false
      case UnknownPendingReconciliation => false
  {
  }

  const ALLOWED := PolicyOutcome(Allow, [], [])

  function Refuse(decision: PolicyDecision, reason: string): PolicyOutcome {
    PolicyOutcome(decision, [reason], [])
  }

  datatype OrderState =
    | IntentReceived | Rejected | Validated | RiskReserved | Acknowledged | PartiallyFilled
    | Filled | CancelPending | Canceled | OrderExpired | ProviderRejected
    | UnknownState | ManualReview
  {
    predicate IsTerminal() {
      Rejected? || Filled? || Canceled? || OrderExpired? || ProviderRejected?
    }
  }

  /** Which order states are final, one by one. */
  lemma TerminalStates(s: OrderState)
    ensures s.IsTerminal() <==>
      match s
      case Rejected | Filled | Canceled | OrderExpired | ProviderRejected => true
      case IntentReceived | Validated | RiskReserved | Acknowledged | PartiallyFilled => false
      case CancelPending | UnknownState | ManualReview => false
  {
  }

  datatype Fill = Fill(
    fillId: string, orderId: string, quantity: Decimal, price: Decimal, filledAt: UtcTimestamp)

  /** What an order was created with and never changes. */
  datatype OrderTerms = OrderTerms(
    orderId: string,
    intentId: string,
    idempotencyKey: string,
    accountAlias: string,
    instrument: Instrument,
    side: Side,
    orderType: OrderType,
    quantity: Decimal,
    limitPrice: Option<Decimal>,
    createdAt: UtcTimestamp)

  datatype Order = Order(
    terms: OrderTerms,
    state: OrderState,
    filledQuantity: Decimal,
    averageFillPrice: Option<Decimal>,
    fills: seq<Fill>,
    updatedAt: UtcTimestamp)

  datatype AuditRecord = AuditRecord(
    eventId: string,
    createdAt: UtcTimestamp,
    intentId: string,
    idempotencyKey: string,
    outcome: PolicyOutcome,
    order: Option<Order>)

  // ----- Which records survive being written and read back -----

  predicate ReadableDecimal(d: Decimal) { d.raw != I128_MIN }

  predicate ReadableOption(d: Option<Decimal>) { d.Some? ==> ReadableDecimal(d.value) }

  predicate ReadableInstrument(i: Instrument) {
    && (i.expiry.Some? ==> FourDigitYear(i.expiry.value))
    && ReadableOption(i.strike) && ReadableDecimal(i.contractMultiplier)
    && ReadableOption(i.tickSize) && ReadableOption(i.lotSize)
  }

  ghost predicate StorableFill(f: Fill) {
    ReadableDecimal(f.quantity) && ReadableDecimal(f.price) && FourDigitYear(f.filledAt)
  }

  ghost predicate StorableOrder(o: Order) {
    && ReadableInstrument(o.terms.instrument)
    && ReadableDecimal(o.terms.quantity) && ReadableOption(o.terms.limitPrice)
    && ReadableDecimal(o.filledQuantity) && ReadableOption(o.averageFillPrice)
    && FourDigitYear(o.terms.createdAt) && FourDigitYear(o.updatedAt)
    && forall i :: 0 <= i < |o.fills| ==> StorableFill(o.fills[i])
  }

  /** Every decimal and every timestamp in the record survives its own text. */
  ghost predicate Storable(r: AuditRecord) {
    FourDigitYear(r.createdAt) && (r.order.Some? ==> StorableOrder(r.order.value))
  }

  /** The leaves of a storable record are read back as they were written, and only theirs are. */
  lemma StorableLeaves(d: Decimal, t: UtcTimestamp)
    ensures ReadableDecimal(d) <==> Parse(FixedDecimal.Render(d)) == Result.Ok(d)
    ensures FourDigitYear(t) <==> ParseRfc3339(Timestamp.Render(t)) == Result.Ok(t)
  {
    FixedDecimal.RoundTrip(d);
    Timestamp.RoundTrip(t);
  }

  /** The JSON text of records: any encoding, with any decoding. */
  datatype Codec = Codec(encode: AuditRecord -> Bytes, decode: Bytes -> Option<AuditRecord>)

  /** The encoding loses nothing of a storable record. */
  ghost predicate Faithful(c: Codec) {
    forall r :: Storable(r) ==> c.decode(c.encode(r)) == Some(r)
  }

  /** And a record with a leaf that does not survive its own text is refused when read back. */
  ghost predicate Exact(c: Codec) {
    forall r :: c.decode(c.encode(r)) == if Storable(r) then Some(r) else None
  }
}
