/** The authorize-and-submit protocol of execution.rs: one step over account and audit log. */
module Execution {
  import opened Prelude
  import opened FixedDecimal
  import opened Timestamp
  import opened Records
  import opened PaperMarket
  import opened Ledger
  import opened Policy
  import opened HashChain
  import opened AuditLog

  /** The parts of the program outside the model: the hash, the JSON codec, the f64 quotient. */
  datatype Env = Env(hash: Hash, codec: Codec, quotient: Quotient)

  datatype State = State(account: Account, log: Log)

  /** One call, with the market, the venue registry and the clock as it finds them. */
  datatype Submission = Submission(
    intent: TradeIntent, evidence: Option<EvidenceBundle>, now: UtcTimestamp,
    quotes: Quotes, venues: Venues)
  {
    function Key(): string { intent.idempotencyKey }
  }

  datatype ExecutionResult = ExecutionResult(
    outcome: PolicyOutcome, order: Option<Order>, wasDuplicate: bool)

  type StepResult = Result<ExecutionResult, AuditError>

  /** The refusal that stops an intent before any order exists, if there is one. */
  function Gate(accountAlias: string, sub: Submission): Option<PolicyOutcome> {
    var intent := sub.intent;
    if intent.mode.RequestsLiveExecution() then
      Some(Refuse(BlockedByOperatorControl, "live-execution-not-implemented-in-this-vertical-slice"))
    else if !intent.mode.RequestsPaperExecution() then
      Some(Refuse(Reject, "mode-does-not-request-paper-execution"))
    else
      var validation := ValidateTradeIntent(intent, sub.now);
      var evidence := CheckEvidence(intent, sub.evidence, sub.now);
      if !validation.IsAllowed() then Some(validation)
      else if !evidence.IsAllowed() then Some(evidence)
      else if intent.accountAlias != accountAlias then Some(Refuse(Reject, "account-alias-mismatch"))
      else None
  }

  function TermsOf(sub: Submission): OrderTerms {
    var i := sub.intent;
    OrderTerms("order-" + i.idempotencyKey, i.intentId, i.idempotencyKey, i.accountAlias, i.instrument,
               i.side, i.orderType, i.quantity, i.limitPrice, sub.now)
  }

  function EstimatedPrice(sub: Submission): Decimal {
    match sub.intent.limitPrice
    case Some(p) => p
    case None =>
      var quote := sub.quotes.QuoteFor(sub.intent.instrument.id);
      if sub.intent.side.IsBuySide() then quote.ask else quote.bid
  }

  /** The estimated cost; a product that overflows counts as zero. */
  function Estimate(sub: Submission): Decimal {
    OrZero(sub.intent.quantity.CheckedMul(EstimatedPrice(sub)))
  }

  function Reserve(a: Account, amount: Decimal): Account {
    a.(reservedCash := UnwrapOr(a.reservedCash.CheckedAdd(amount), a.reservedCash))
  }

  function Release(a: Account, amount: Decimal): Account {
    a.(reservedCash := UnwrapOr(a.reservedCash.CheckedSub(amount), D_ZERO))
  }

  function FillOf(sub: Submission, price: Decimal): Fill {
    Fill("fill-" + ("order-" + sub.Key()), "order-" + sub.Key(), sub.intent.quantity, price, sub.now)
  }

  function TradeOf(sub: Submission, price: Decimal): Trade {
    Trade(sub.intent.instrument, sub.intent.side, sub.intent.quantity, price)
  }

  function Acceptance(sub: Submission): PolicyOutcome {
    match CheckVenueProfile(sub.intent.instrument, sub.venues, sub.now)
    case Some(w) => ALLOWED.WithWarning(w)
    case None => ALLOWED
  }

  datatype Decision = Decision(account: Account, outcome: PolicyOutcome, order: Option<Order>)

  /** What a fresh submission does to the account, and what is decided about it. */
  function Decide(q: Quotient, a: Account, sub: Submission): Decision {
    var gate := Gate(a.accountAlias, sub);
    if gate.Some? then Decision(a, gate.value, None)
    else if sub.intent.side.IsBuySide() then
      var risk := CheckBuyingPower(a, Estimate(sub));
      if !risk.IsAllowed() then
        Decision(a, risk, Some(NewOrder(TermsOf(sub)).(state := Rejected)))
      else
        var d := Work(q, Reserve(a, Estimate(sub)), sub);
        d.(account := Release(d.account, Estimate(sub)))
    else Work(q, a, sub)
  }

  /** Acknowledges the order and fills it in full if the simulator does. */
  function Work(q: Quotient, a: Account, sub: Submission): Decision {
    var order := NewOrder(TermsOf(sub)).(state := Acknowledged);
    match sub.quotes.SimulateFill(TermsOf(sub))
    case FilledAt(price) =>
      Decision(ApplyTrade(q, a, TradeOf(sub, price)), Acceptance(sub),
               Some(FillOrder(q, order, FillOf(sub, price))))
    case StaysOpen => Decision(a, Acceptance(sub), Some(order))
  }

  function RecordOf(sub: Submission, outcome: PolicyOutcome, order: Option<Order>): AuditRecord {
    AuditRecord("evt-" + sub.Key(), sub.now, sub.intent.intentId, sub.Key(), outcome, order)
  }

  function Persist(env: Env, log: Log, sub: Submission, outcome: PolicyOutcome, order: Option<Order>)
    : (Log, StepResult)
  {
    var (after, r) := AppendTo(env.hash, env.codec, log, RecordOf(sub, outcome, order));
    (after, match r
            case Ok(_) => Ok(ExecutionResult(outcome, order, false))
            case Err(e) => Err(e))
  }

  /** One call of the protocol. A key that is already recorded is answered from the log. */
  function Step(env: Env, s: State, sub: Submission): (State, StepResult) {
    match FindKey(env.codec, s.log.rows, sub.Key())
    case Err(e) => (s, Err(e))
    case Ok(Some(r)) => (s, Ok(ExecutionResult(r.outcome, r.order, true)))
    case Ok(None) =>
      var d := Decide(env.quotient, s.account, sub);
      var (log, r) := Persist(env, s.log, sub, d.outcome, d.order);
      (State(d.account, log), r)
  }

  // ----- The protocol as the code runs it -----

  method PersistAndReturn(audit: AuditStore, ghost env: Env, ghost sub: Submission, intent: TradeIntent,
                          outcome: PolicyOutcome, order: Option<Order>, now: UtcTimestamp)
    returns (r: StepResult)
    requires env.hash == audit.hash && env.codec == audit.codec
    requires sub.intent == intent && sub.now == now
    modifies audit
    ensures (audit.Contents(), r) == Persist(env, old(audit.Contents()), sub, outcome, order)
  {
    hide AppendTo;
    var record := AuditRecord("evt-" + intent.idempotencyKey, now, intent.intentId,
                              intent.idempotencyKey, outcome, order);
    var appended := audit.Append(record);
    match appended {
      case Ok(_) => r := Ok(ExecutionResult(outcome, order, false));
      case Err(e) => r := Err(e);
    }
  }

  /** The checks that run before the account is looked at or an order exists. */
  method RunGates(accountAlias: string, intent: TradeIntent, evidence: Option<EvidenceBundle>,
                  now: UtcTimestamp, ghost sub: Submission)
    returns (refusal: Option<PolicyOutcome>)
    requires sub.intent == intent && sub.evidence == evidence && sub.now == now
    ensures refusal == Gate(accountAlias, sub)
  {
    hide ValidateTradeIntent, CheckEvidence, PolicyOutcome.IsAllowed;
    if intent.mode.RequestsLiveExecution() {
      return Some(Refuse(BlockedByOperatorControl, "live-execution-not-implemented-in-this-vertical-slice"));
    }
    if !intent.mode.RequestsPaperExecution() {
      return Some(Refuse(Reject, "mode-does-not-request-paper-execution"));
    }
    var validation := ValidateTradeIntent(intent, now);
    if !validation.IsAllowed() {
      return Some(validation);
    }
    var evidenceOutcome := CheckEvidence(intent, evidence, now);
    if !evidenceOutcome.IsAllowed() {
      return Some(evidenceOutcome);
    }
    if intent.accountAlias != accountAlias {
      return Some(Refuse(Reject, "account-alias-mismatch"));
    }
    refusal := None;
  }

  /** Fills the order, and with it the account, if the simulator does. */
  method FillIfMarketable(account: AccountSnapshot, simulator: PaperSimulator, quotient: Quotient,
                          order: WorkingOrder, sub: Submission)
    requires simulator.State() == sub.quotes
    requires order.Snapshot() == NewOrder(TermsOf(sub)).(state := Acknowledged)
    modifies account, order
    ensures var d := Work(quotient, old(account.State()), sub);
            account.State() == d.account && d.order == Some(order.Snapshot()) && d.outcome == Acceptance(sub)
  {
    hide ApplyTrade, FillOrder, Quotes.SimulateFill, Acceptance;
    var outcome := simulator.State().SimulateFill(order.terms);
    match outcome {
      case FilledAt(price) =>
        var fill := Fill("fill-" + order.terms.orderId, order.terms.orderId, order.terms.quantity, price, sub.now);
        order.ApplyFill(quotient, fill);
        account.ApplyFill(quotient, order.terms.instrument, order.terms.side, fill.quantity, price);
      case StaysOpen =>
    }
  }

  /** Reserves, works and releases an order that has passed the gates. */
  method WorkOrder(account: AccountSnapshot, simulator: PaperSimulator, quotient: Quotient, sub: Submission)
    returns (outcome: PolicyOutcome, placed: Order)
    requires simulator.State() == sub.quotes && Gate(account.accountAlias, sub).None?
    modifies account
    ensures Decide(quotient, old(account.State()), sub) == Decision(account.State(), outcome, Some(placed))
  {
    hide Gate, Work, CheckBuyingPower, PolicyOutcome.IsAllowed, EstimatedPrice, Acceptance, TermsOf;
    var order := new WorkingOrder(TermsOf(sub));
    var estimatedNotional := OrZero(sub.intent.quantity.CheckedMul(EstimatedPrice(sub)));
    if sub.intent.side.IsBuySide() {
      var risk := CheckBuyingPower(account.State(), estimatedNotional);
      if !risk.IsAllowed() {
        order.state := Rejected;
        return risk, order.Snapshot();
      }
      account.reservedCash := UnwrapOr(account.reservedCash.CheckedAdd(estimatedNotional), account.reservedCash);
    }
    order.state := RiskReserved;
    order.state := Acknowledged;
    FillIfMarketable(account, simulator, quotient, order, sub);
    if sub.intent.side.IsBuySide() {
      account.reservedCash := UnwrapOr(account.reservedCash.CheckedSub(estimatedNotional), D_ZERO);
    }
    return Acceptance(sub), order.Snapshot();
  }

  /** The updates run in the source's order: look up, gate, reserve, fill, release, record. */
  method AuthorizeAndSubmitPaperOrder(
    account: AccountSnapshot, simulator: PaperSimulator, audit: AuditStore, venues: VenueRegistry,
    quotient: Quotient, intent: TradeIntent, evidence: Option<EvidenceBundle>, now: UtcTimestamp)
    returns (r: StepResult)
    modifies account, audit
    ensures (State(account.State(), audit.Contents()), r) ==
              Step(Env(audit.hash, audit.codec, quotient),
                   State(old(account.State()), old(audit.Contents())),
                   Submission(intent, evidence, now, simulator.State(), venues.profiles))
  {
    hide FindKey, Gate, Persist, Work, CheckBuyingPower, Estimate;
    var env := Env(audit.hash, audit.codec, quotient);
    var sub := Submission(intent, evidence, now, simulator.State(), venues.profiles);
    var found := audit.FindByIdempotencyKey(intent.idempotencyKey);
    match found {
      case Err(e) =>
        return Err(e);
      case Ok(Some(existing)) =>
        return Ok(ExecutionResult(existing.outcome, existing.order, true));
      case Ok(None) =>
    }
    var refusal := RunGates(account.accountAlias, intent, evidence, now, sub);
    if refusal.Some? {
      r := PersistAndReturn(audit, env, sub, intent, refusal.value, None, now);
      return;
    }
    var outcome, order := WorkOrder(account, simulator, quotient, sub);
    r := PersistAndReturn(audit, env, sub, intent, outcome, Some(order), now);
  }
}
