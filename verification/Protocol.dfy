/** What one call of the protocol keeps: reservations, cash, and the shape of what it records. */
module Protocol {
  import opened Prelude
  import opened FixedDecimal
  import opened Timestamp
  import opened Records
  import opened PaperMarket
  import opened Ledger
  import opened Policy
  import opened Execution

  // ----- Reservations -----

  /** Whether the call reserves cash: a buy that passes the gates and the buying-power check. */
  predicate Reserves(a: Account, sub: Submission) {
    Gate(a.accountAlias, sub).None? && Purchases(sub.intent.side)
    && Estimate(sub).raw <= a.BuyingPower().raw
  }

  lemma WorkKeepsReservation(q: Quotient, a: Account, sub: Submission)
    ensures Work(q, a, sub).account.reservedCash == a.reservedCash
    ensures Work(q, a, sub).account.accountAlias == a.accountAlias
  {
    hide Quotes.SimulateFill, FillOrder;
  }

  /** Reserving and releasing are exact where they fit; else reserving reserves nothing, and releasing
      clears the reservation. */
  lemma ReserveAndReleaseExact(a: Account, amount: Decimal)
    ensures var up, down := a.reservedCash.raw + amount.raw, a.reservedCash.raw - amount.raw;
            && Reserve(a, amount).reservedCash.raw == (if FitsI128(up) then up else a.reservedCash.raw)
            && Release(a, amount).reservedCash.raw == (if FitsI128(down) then down else 0)
            && Reserve(a, amount).(reservedCash := a.reservedCash) == a
            && Release(a, amount).(reservedCash := a.reservedCash) == a
  {
  }

  /** On every exit path the reservation is what it was at entry, except that an amount whose
      addition overflows is released without having been reserved. */
  lemma ReservationRestored(q: Quotient, a: Account, sub: Submission)
    ensures Decide(q, a, sub).account.reservedCash == a.reservedCash
            <==> (Reserves(a, sub) ==> FitsI128(a.reservedCash.raw + Estimate(sub).raw))
    ensures Reserves(a, sub) && !FitsI128(a.reservedCash.raw + Estimate(sub).raw) ==>
              Decide(q, a, sub).account.reservedCash.raw == a.reservedCash.raw - Estimate(sub).raw
    ensures Decide(q, a, sub).account.accountAlias == a.accountAlias
  {
    hide Gate, Work, Estimate;
    WorkKeepsReservation(q, Reserve(a, Estimate(sub)), sub);
    WorkKeepsReservation(q, a, sub);
  }

  /** An account with nothing reserved has nothing reserved afterwards, whatever the prices. */
  lemma NothingStaysReserved(q: Quotient, a: Account, sub: Submission)
    requires a.reservedCash == D_ZERO
    ensures Decide(q, a, sub).account.reservedCash == D_ZERO
  {
    hide Decide, Gate, Estimate, Account.BuyingPower;
    ReservationRestored(q, a, sub);
  }

  /** Right after reserving a non-negative estimate the reservation is within the cash. */
  lemma ReservationWithinCash(a: Account, sub: Submission)
    requires Reserves(a, sub) && Estimate(sub).raw >= 0 && 0 <= a.reservedCash.raw <= a.cash.raw
    ensures 0 <= Reserve(a, Estimate(sub)).reservedCash.raw <= a.cash.raw
    ensures Reserve(a, Estimate(sub)).reservedCash.raw == a.reservedCash.raw + Estimate(sub).raw
  {
    hide Gate, Estimate;
    PassingNotionalFits(a, Estimate(sub));
  }

  // ----- The ledger part of a decision is the replay of its fills -----

  /** The trades that the fills of an order stand for. */
  function TradesOf(o: Order): (ts: seq<Trade>)
    ensures |ts| == |o.fills|
  {
    seq(|o.fills|, i requires 0 <= i < |o.fills| =>
      Trade(o.terms.instrument, o.terms.side, o.fills[i].quantity, o.fills[i].price))
  }

  function TradesOfOption(o: Option<Order>): seq<Trade> {
    match o case Some(order) => TradesOf(order) case None => []
  }

  lemma ApplyTradesSingle(q: Quotient, a: Account, t: Trade)
    ensures ApplyTrades(q, a, [t]) == ApplyTrade(q, a, t)
  {
    assert [t][..0] == [];
  }

  /** The account after a decision is the account before it with the fills of the decided order
      applied, and nothing else, once the reservation is set aside. */
  lemma DecisionIsReplay(q: Quotient, a: Account, sub: Submission)
    ensures var d := Decide(q, a, sub);
            d.account == ApplyTrades(q, a, TradesOfOption(d.order)).(reservedCash := d.account.reservedCash)
  {
    hide Gate, Work, Estimate, Account.BuyingPower, ApplyTrades, ApplyTrade;
    if Gate(a.accountAlias, sub).None? {
      if sub.intent.side.IsBuySide() {
        var reserved := Reserve(a, Estimate(sub));
        WorkIsReplay(q, reserved, sub);
        ReplayIgnoresReservation(q, a, reserved.reservedCash, TradesOfOption(Work(q, reserved, sub).order));
        NoTrades(q, a);
      } else {
        WorkIsReplay(q, a, sub);
      }
    }
    NoTrades(q, a);
  }

  lemma NoTrades(q: Quotient, a: Account)
    ensures ApplyTrades(q, a, []) == a
  {
  }

  /** The order's terms name the submitted instrument, side and quantity. */
  lemma TermsAre(sub: Submission)
    ensures var t := TermsOf(sub);
            t.instrument == sub.intent.instrument && t.side == sub.intent.side
            && t.quantity == sub.intent.quantity && t.orderType == sub.intent.orderType
            && t.limitPrice == sub.intent.limitPrice && t.createdAt == sub.now
  {
  }

  lemma WorkIsReplay(q: Quotient, a: Account, sub: Submission)
    ensures var d := Work(q, a, sub);
            d.order.Some? && d.account == ApplyTrades(q, a, TradesOf(d.order.value))
  {
    hide Quotes.SimulateFill, ApplyTrade, FillOrder, Acceptance, TermsOf;
    match sub.quotes.SimulateFill(TermsOf(sub))
    case FilledAt(price) =>
      var order := Work(q, a, sub).order.value;
      FillOrderAdds(q, NewOrder(TermsOf(sub)).(state := Acknowledged), FillOf(sub, price));
      TermsAre(sub);
      assert TradesOf(order) == [TradeOf(sub, price)];
      ApplyTradesSingle(q, a, TradeOf(sub, price));
    case StaysOpen =>
      assert TradesOf(Work(q, a, sub).order.value) == [];
  }

  lemma {:induction false} ReplayIgnoresReservation(q: Quotient, a: Account, reserved: Decimal, ts: seq<Trade>)
    ensures ApplyTrades(q, a.(reservedCash := reserved), ts) == ApplyTrades(q, a, ts).(reservedCash := reserved)
    ensures ApplyTrades(q, a, ts).reservedCash == a.reservedCash
  {
    hide CashAfter, PositionsAfter;
    if ts != [] {
      ReplayIgnoresReservation(q, a, reserved, ts[..|ts| - 1]);
    }
  }

  // ----- What is recorded -----

  /** The shape of every decision: allowed exactly with a working or filled order, blocked by
      risk exactly with a rejected one, and otherwise without an order. */
  ghost predicate Shaped(outcome: PolicyOutcome, order: Option<Order>) {
    && (outcome.IsAllowed() <==>
          order.Some? && (order.value.state.Acknowledged? || order.value.state == OrderState.Filled))
    && (outcome.decision.BlockedByRisk? <==> order.Some? && order.value.state.Rejected?)
    && (!outcome.IsAllowed() && !outcome.decision.BlockedByRisk? ==> order.None?)
    && (order.Some? ==>
          (if order.value.state == OrderState.Filled
           then |order.value.fills| == 1 && order.value.filledQuantity == order.value.terms.quantity
                && order.value.fills[0].quantity == order.value.terms.quantity
           else order.value.fills == [] && order.value.filledQuantity == D_ZERO))
  }

  /** A refusal by the gates: one reason, no warning, and nothing to do with risk. */
  predicate GateRefusal(o: PolicyOutcome) {
    !o.IsAllowed() && !o.decision.BlockedByRisk? && o.warnings == [] && |o.reasonCodes| == 1
  }

  lemma ValidationRefuses(intent: TradeIntent, now: UtcTimestamp)
    ensures var o := ValidateTradeIntent(intent, now); o.IsAllowed() || GateRefusal(o)
  {
    hide IsBlank, ValidatePrices, ConfidenceInRange, UtcTimestamp.SaturatingDiffSeconds;
  }

  lemma EvidenceRefuses(intent: TradeIntent, bundle: Option<EvidenceBundle>, now: UtcTimestamp)
    ensures var o := CheckEvidence(intent, bundle, now); o.IsAllowed() || GateRefusal(o)
  {
    hide UtcTimestamp.SaturatingDiffSeconds, EvidenceBundle.NotYetPublic, EvidenceBundle.AllEligible;
  }

  lemma GateRefuses(accountAlias: string, sub: Submission)
    ensures var g := Gate(accountAlias, sub); g.Some? ==> GateRefusal(g.value)
  {
    hide ValidateTradeIntent, CheckEvidence, PolicyOutcome.IsAllowed;
    ValidationRefuses(sub.intent, sub.now);
    EvidenceRefuses(sub.intent, sub.evidence, sub.now);
    FixedRefusals();
  }

  /** The reasons the gates give themselves. */
  lemma FixedRefusals()
    ensures GateRefusal(Refuse(BlockedByOperatorControl, "live-execution-not-implemented-in-this-vertical-slice"))
    ensures GateRefusal(Refuse(Reject, "mode-does-not-request-paper-execution"))
    ensures GateRefusal(Refuse(Reject, "account-alias-mismatch"))
  {
  }

  /** What is known of a submission that passes the gates. */
  lemma GatePasses(accountAlias: string, sub: Submission)
    requires Gate(accountAlias, sub).None?
    ensures (sub.intent.mode.Paper? || sub.intent.mode.PaperAutonomous?) && sub.intent.accountAlias == accountAlias
    ensures MeetsRules(sub.intent, sub.now) && Backs(sub.evidence, sub.intent, sub.now)
    ensures sub.intent.quantity.raw > 0
    ensures sub.intent.orderType.Limit? || sub.intent.orderType.LimitOnClose? ==> Positive(sub.intent.limitPrice)
  {
    hide Gate, Backs, MeetsRules;
    GateExact(accountAlias, sub);
    ValidIntentIsPriced(sub.intent, sub.now);
  }

  lemma WorkIsShaped(q: Quotient, a: Account, sub: Submission)
    requires sub.intent.quantity.raw > 0
    ensures Shaped(Work(q, a, sub).outcome, Work(q, a, sub).order)
    ensures Work(q, a, sub).outcome.decision.Allow? && Work(q, a, sub).outcome.reasonCodes == []
  {
    hide Quotes.SimulateFill, ApplyTrade, Decimal.CheckedMul, ApproxDiv, CheckVenueProfile;
  }

  lemma DecisionIsShaped(q: Quotient, a: Account, sub: Submission)
    ensures Shaped(Decide(q, a, sub).outcome, Decide(q, a, sub).order)
  {
    hide Gate, Work, Estimate, Account.BuyingPower, MeetsRules, Backs;
    GateRefuses(a.accountAlias, sub);
    if Gate(a.accountAlias, sub).None? {
      GatePasses(a.accountAlias, sub);
      WorkIsShaped(q, Reserve(a, Estimate(sub)), sub);
      WorkIsShaped(q, a, sub);
    }
  }

  /** Only the two paper modes ever place an order or touch the account; the others are refused, the
      live ones by operator control, and so is every submission that is not allowed. */
  lemma OnlyPaperTouchesTheAccount(q: Quotient, a: Account, sub: Submission)
    ensures var d := Decide(q, a, sub);
            match sub.intent.mode
            case Observe | Advisory => d.account == a && d.order.None? && d.outcome.decision.Reject?
            case GuardedLive | GuardedLiveAutonomous =>
              d.account == a && d.order.None? && d.outcome.decision.BlockedByOperatorControl?
            case Paper | PaperAutonomous => !d.outcome.IsAllowed() ==> d.account == a
  {
    hide Gate, Work, Estimate, Account.BuyingPower;
    GateByMode(a.accountAlias, sub);
    GateRefuses(a.accountAlias, sub);
    WorkAllows(q, a, sub);
    WorkAllows(q, Reserve(a, Estimate(sub)), sub);
  }

  lemma GateByMode(accountAlias: string, sub: Submission)
    ensures var g := Gate(accountAlias, sub);
            match sub.intent.mode
            case Observe | Advisory => g.Some? && g.value.decision.Reject?
            case GuardedLive | GuardedLiveAutonomous => g.Some? && g.value.decision.BlockedByOperatorControl?
            case Paper | PaperAutonomous => true
  {
    hide ValidateTradeIntent, CheckEvidence;
  }

  lemma WorkAllows(q: Quotient, a: Account, sub: Submission)
    ensures Work(q, a, sub).outcome.IsAllowed()
  {
    hide Quotes.SimulateFill, ApplyTrade, FillOrder, CheckVenueProfile;
  }

  lemma GateExact(accountAlias: string, sub: Submission)
    ensures Gate(accountAlias, sub).None? <==>
      && (sub.intent.mode.Paper? || sub.intent.mode.PaperAutonomous?)
      && MeetsRules(sub.intent, sub.now) && Backs(sub.evidence, sub.intent, sub.now)
      && sub.intent.accountAlias == accountAlias
  {
    hide ValidateTradeIntent, CheckEvidence, MeetsRules, Backs;
    ValidIntent(sub.intent, sub.now);
    EligibleEvidence(sub.intent, sub.evidence, sub.now);
  }

  /** An order is placed exactly when the intent asks for paper execution, meets the rules, is
      backed by its evidence, names this account, and a buy's estimate can still be spent. */
  lemma AllowedExactly(q: Quotient, a: Account, sub: Submission)
    ensures Decide(q, a, sub).outcome.IsAllowed() <==>
      && (sub.intent.mode.Paper? || sub.intent.mode.PaperAutonomous?)
      && MeetsRules(sub.intent, sub.now)
      && Backs(sub.evidence, sub.intent, sub.now)
      && sub.intent.accountAlias == a.accountAlias
      && (Purchases(sub.intent.side) ==> Estimate(sub).raw <= Spendable(a))
  {
    hide Gate, Estimate, Account.BuyingPower, Work, MeetsRules, Backs, Spendable;
    GateExact(a.accountAlias, sub);
    GateRefuses(a.accountAlias, sub);
    BuyingPowerExact(a);
    WorkAllows(q, a, sub);
    WorkAllows(q, Reserve(a, Estimate(sub)), sub);
  }

  // ----- What an order and its fill are made of -----

  /** Quantity times the order's own limit price if it has one, else the quote's side, rounded toward
      zero; nothing if the product overflows. */
  lemma EstimateExact(sub: Submission)
    ensures var i, quote := sub.intent, sub.quotes.QuoteFor(sub.intent.instrument.id);
            var price := if i.limitPrice.Some? then i.limitPrice.value.raw
                         else quote.Side(i.side).raw;
            Estimate(sub).raw ==
              if FitsI128(i.quantity.raw * price) then TruncDiv(i.quantity.raw * price, SCALE) else 0
  {
    hide Quotes.QuoteFor, TruncDiv;
    WorthFits(sub.intent.quantity.raw * EstimatedPrice(sub).raw);
  }

  /** Every order carries its intent, is created and updated now, and has at most one fill, of the
      whole quantity at the quote's side, under ids made from the key. */
  lemma OrderCarriesIntent(q: Quotient, a: Account, sub: Submission)
    ensures var i, key, order := sub.intent, sub.Key(), Decide(q, a, sub).order;
            order.Some? ==>
              var o, t := order.value, order.value.terms;
              && t.orderId == "order-" + key && t.idempotencyKey == key && t.intentId == i.intentId
              && t.accountAlias == i.accountAlias && t.instrument == i.instrument && t.side == i.side
              && t.orderType == i.orderType && t.quantity == i.quantity && t.limitPrice == i.limitPrice
              && t.createdAt == sub.now && o.updatedAt == sub.now && |o.fills| <= 1
              && (o.fills == [] ==> o.averageFillPrice.None? && o.filledQuantity.raw == 0)
              && forall f :: f in o.fills ==>
                   && f.fillId == "fill-order-" + key && f.orderId == "order-" + key
                   && f.quantity == i.quantity && f.filledAt == sub.now
                   && f.price == sub.quotes.QuoteFor(i.instrument.id).Side(i.side)
  {
    hide Gate, Work, Estimate, Account.BuyingPower, Quotes.QuoteFor;
    WorkCarriesIntent(q, a, sub);
    WorkCarriesIntent(q, Reserve(a, Estimate(sub)), sub);
  }

  lemma WorkCarriesIntent(q: Quotient, a: Account, sub: Submission)
    ensures var o := Work(q, a, sub).order.value;
            && Work(q, a, sub).order.Some? && o.terms == TermsOf(sub) && o.updatedAt == sub.now
            && |o.fills| <= 1
            && (o.fills == [] ==> o.averageFillPrice.None? && o.filledQuantity.raw == 0)
            && forall f :: f in o.fills ==>
                 && f.fillId == "fill-order-" + sub.Key() && f.orderId == "order-" + sub.Key()
                 && f.quantity == sub.intent.quantity && f.filledAt == sub.now
                 && f.price == sub.quotes.QuoteFor(sub.intent.instrument.id).Side(sub.intent.side)
  {
    hide Quotes.SimulateFill, ApplyTrade, FillOrder, Acceptance, Quotes.QuoteFor;
    FillIsFair(sub.quotes, TermsOf(sub));
    match sub.quotes.SimulateFill(TermsOf(sub))
    case FilledAt(price) =>
      FillOrderAdds(q, NewOrder(TermsOf(sub)).(state := Acknowledged), FillOf(sub, price));
      assert "fill-" + ("order-" + sub.Key()) == "fill-order-" + sub.Key();
    case StaysOpen =>
  }

  // ----- Every outcome names the first rule broken -----

  /** All the rules a submission is checked against, in order. */
  ghost function SubmissionRules(a: Account, sub: Submission): seq<Rule> {
    var i := sub.intent;
    [ Rule(!i.mode.GuardedLive? && !i.mode.GuardedLiveAutonomous?,
           BlockedByOperatorControl, "live-execution-not-implemented-in-this-vertical-slice"),
      Rule(i.mode.Paper? || i.mode.PaperAutonomous?, Reject, "mode-does-not-request-paper-execution") ]
    + (IntentRules(i, sub.now)
       + (EvidenceRules(sub.evidence, i, sub.now)
          + [ Rule(i.accountAlias == a.accountAlias, Reject, "account-alias-mismatch"),
              Rule(i.side.Buy? || i.side.BuyToCover? ==> Estimate(sub).raw <= Spendable(a),
                   BlockedByRisk, "insufficient-buying-power") ]))
  }

  /** A refusal is that of the first rule broken, with its one reason and no warning. If none is
      broken the order is allowed, with the venue's warning if there is one and no reason. */
  lemma OutcomeNamesFirstBroken(q: Quotient, a: Account, sub: Submission)
    ensures Decide(q, a, sub).outcome ==
      match FirstBroken(SubmissionRules(a, sub))
      case Some(r) => PolicyOutcome(r.decision, [r.reason], [])
      case None =>
        PolicyOutcome(Allow, [], match CheckVenueProfile(sub.intent.instrument, sub.venues, sub.now)
                                 case Some(w) => [w]
                                 case None => [])
  {
    hide Estimate, Account.BuyingPower, CheckVenueProfile, Work, ValidateTradeIntent, CheckEvidence;
    hide IntentRules, EvidenceRules, Spendable;
    WorkOutcome(q, a, sub);
    WorkOutcome(q, Reserve(a, Estimate(sub)), sub);
    BuyingPowerExact(a);
    ValidationNamesFirstBroken(sub.intent, sub.now);
    EvidenceNamesFirstBroken(sub.intent, sub.evidence, sub.now);
    ValidIntent(sub.intent, sub.now);
    EligibleEvidence(sub.intent, sub.evidence, sub.now);
    NoneBroken(IntentRules(sub.intent, sub.now));
    NoneBroken(EvidenceRules(sub.evidence, sub.intent, sub.now));
    FirstBrokenOfAll(a, sub);
  }

  lemma FirstBrokenOfAll(a: Account, sub: Submission)
    ensures var i := sub.intent;
            FirstBroken(SubmissionRules(a, sub)) ==
              if i.mode.GuardedLive? || i.mode.GuardedLiveAutonomous? then
                Some(Rule(false, BlockedByOperatorControl, "live-execution-not-implemented-in-this-vertical-slice"))
              else if !i.mode.Paper? && !i.mode.PaperAutonomous? then
                Some(Rule(false, Reject, "mode-does-not-request-paper-execution"))
              else if FirstBroken(IntentRules(i, sub.now)).Some? then FirstBroken(IntentRules(i, sub.now))
              else if FirstBroken(EvidenceRules(sub.evidence, i, sub.now)).Some? then
                FirstBroken(EvidenceRules(sub.evidence, i, sub.now))
              else if i.accountAlias != a.accountAlias then Some(Rule(false, Reject, "account-alias-mismatch"))
              else if (i.side.Buy? || i.side.BuyToCover?) && Estimate(sub).raw > Spendable(a) then
                Some(Rule(false, BlockedByRisk, "insufficient-buying-power"))
              else None
  {
    hide IntentRules, EvidenceRules, Estimate, Spendable, FirstBroken;
    var i := sub.intent;
    var last := [ Rule(i.accountAlias == a.accountAlias, Reject, "account-alias-mismatch"),
                  Rule(i.side.Buy? || i.side.BuyToCover? ==> Estimate(sub).raw <= Spendable(a),
                       BlockedByRisk, "insufficient-buying-power") ];
    var evidence := EvidenceRules(sub.evidence, i, sub.now);
    FirstBrokenConcat(evidence, last);
    FirstBrokenConcat(IntentRules(i, sub.now), evidence + last);
    var modes := SubmissionRules(a, sub)[..2];
    FirstBrokenConcat(modes, IntentRules(i, sub.now) + (evidence + last));
    assert SubmissionRules(a, sub) == modes + (IntentRules(i, sub.now) + (evidence + last));
    var m := FirstBrokenAt(modes);
    var k := FirstBrokenAt(last);
    assert (m > 0 ==> modes[0].holds) && (m > 1 ==> modes[1].holds);
    assert (k > 0 ==> last[0].holds) && (k > 1 ==> last[1].holds);
  }

  lemma WorkOutcome(q: Quotient, a: Account, sub: Submission)
    ensures Work(q, a, sub).outcome == Acceptance(sub)
  {
    hide Quotes.SimulateFill, ApplyTrade, FillOrder, CheckVenueProfile;
  }
}
