/** When a submission can overdraw an account, and when it never does. */
module CashSafety {
  import opened Prelude
  import opened FixedDecimal
  import opened Records
  import opened PaperMarket
  import opened Ledger
  import opened Policy
  import opened Execution
  import opened Protocol

  function Max(x: int, y: int): int { if x >= y then x else y }

  function FillFor(sub: Submission): FillOutcome { sub.quotes.SimulateFill(TermsOf(sub)) }

  function QuoteOf(sub: Submission): Quote { sub.quotes.QuoteFor(sub.intent.instrument.id) }

  /** What the submission costs if it fills now: a sale brings in the negative of it. */
  function FillNotional(sub: Submission): int
    requires FillFor(sub).FilledAt?
  {
    TradeOf(sub, FillFor(sub).price).Notional().raw
  }

  /** The estimate covers the fill: a buy costs no more than it was checked for, and a sale brings
      in no negative amount. Computed from the intent and the quote, before any account. */
  predicate Covered(sub: Submission) {
    FillFor(sub).FilledAt? ==>
      if Purchases(sub.intent.side) then FillNotional(sub) <= Max(0, Estimate(sub).raw)
      else FillNotional(sub) >= 0
  }

  predicate Sane(sub: Submission) { SaneAt(sub.quotes, sub.intent.instrument.id) }

  /** An account that could have opened the day: no debt and nothing reserved. */
  predicate Solvent(a: Account) { a.cash.raw >= 0 && a.reservedCash == D_ZERO }

  /** Working an order moves cash by the fill's notional. */
  lemma WorkCash(q: Quotient, a: Account, sub: Submission)
    ensures Work(q, a, sub).account.cash ==
              if FillFor(sub).FilledAt? then CashAfter(a.cash, TradeOf(sub, FillFor(sub).price)) else a.cash
  {
    hide Quotes.SimulateFill, PositionsAfter, CashAfter, FillOrder;
  }

  /** A covered submission leaves a solvent account solvent, whatever the quotes. */
  lemma CoveredKeepsSolvent(q: Quotient, a: Account, sub: Submission)
    requires Solvent(a) && Covered(sub)
    ensures Solvent(Decide(q, a, sub).account)
  {
    hide Gate, Work, Estimate, FillFor, TermsOf, Trade.Notional;
    NothingStaysReserved(q, a, sub);
    WorkCash(q, a, sub);
    WorkCash(q, Reserve(a, Estimate(sub)), sub);
  }

  /** An uncovered submission that passes the gates overdraws some solvent account: a buy one that
      holds just what was estimated, a sale an empty one. */
  lemma UncoveredOverdraws(q: Quotient, sub: Submission) returns (a: Account)
    requires Gate(sub.intent.accountAlias, sub).None? && !Covered(sub)
    ensures a.accountAlias == sub.intent.accountAlias && Solvent(a)
    ensures Decide(q, a, sub).account.cash.raw < 0
  {
    hide Gate, Work, Estimate, FillFor, TermsOf, Trade.Notional;
    var cash := if Purchases(sub.intent.side) then Max(0, Estimate(sub).raw) else 0;
    a := NewAccount(sub.intent.accountAlias, "USD", Decimal(cash), sub.now);
    WorkCash(q, a, sub);
    WorkCash(q, Reserve(a, Estimate(sub)), sub);
  }

  /** Exactly the covered submissions are safe for every solvent account. */
  lemma CashSafeExactly(q: Quotient, sub: Submission)
    requires Gate(sub.intent.accountAlias, sub).None?
    ensures Covered(sub) <==>
              forall a: Account :: a.accountAlias == sub.intent.accountAlias && Solvent(a) ==>
                Decide(q, a, sub).account.cash.raw >= 0
  {
    hide Gate, Decide, Covered;
    if Covered(sub) {
      forall a: Account | a.accountAlias == sub.intent.accountAlias && Solvent(a)
        ensures Decide(q, a, sub).account.cash.raw >= 0
      {
        CoveredKeepsSolvent(q, a, sub);
      }
    } else {
      var a := UncoveredOverdraws(q, sub);
    }
  }

  /** What a caller can look at before a sale: one at market must meet a bid that is not negative.
      A limit order must name a positive price, so it only ever fills above zero. */
  predicate SaleGuarded(sub: Submission) {
    IsMarketType(sub.intent.orderType) ==> QuoteOf(sub).bid.raw >= 0
  }

  /** And before a buy. A market buy must carry no limit price, or one not below the ask, whose
      product with the quantity fits. A limit buy's product with the quantity must fit. The
      simulator never fills the other order types. */
  predicate BuyGuarded(sub: Submission) {
    var i := sub.intent;
    (IsMarketType(i.orderType) || IsLimitType(i.orderType)) && i.limitPrice.Some? ==>
      && i.quantity.CheckedMul(i.limitPrice.value).Some?
      && (IsMarketType(i.orderType) ==> QuoteOf(sub).ask.raw <= i.limitPrice.value.raw)
  }

  predicate Guarded(sub: Submission) {
    if Purchases(sub.intent.side) then BuyGuarded(sub) else SaleGuarded(sub)
  }

  /** A guarded submission that passes the gates is covered: truncating multiplication is monotone
      in the price, and a limit order fills only within its limit. */
  lemma GuardedIsCovered(sub: Submission)
    requires Gate(sub.intent.accountAlias, sub).None? && Guarded(sub)
    ensures Covered(sub)
  {
    hide Gate, Backs, MeetsRules, Quotes.QuoteFor, Quotes.SimulateFill;
    GatePasses(sub.intent.accountAlias, sub);
    FillIsFair(sub.quotes, TermsOf(sub));
    if FillFor(sub).FilledAt? {
      if Purchases(sub.intent.side) {
        BuyIsCovered(sub);
      } else {
        NotionalSign(QuoteOf(sub).bid, sub.intent.quantity);
      }
    }
  }

  lemma NotionalSign(price: Decimal, quantity: Decimal)
    requires quantity.raw >= 0
    ensures price.raw >= 0 ==> OrZero(price.CheckedMul(quantity)).raw >= 0
    ensures price.raw <= 0 ==> OrZero(price.CheckedMul(quantity)).raw <= 0
  {
    if price.raw >= 0 {
      ProductMonotone(quantity.raw, 0, price.raw);
    } else {
      ProductMonotone(quantity.raw, 0, 0 - price.raw);
      assert price.raw * quantity.raw == 0 - quantity.raw * (0 - price.raw);
    }
  }

  lemma BuyIsCovered(sub: Submission)
    requires Purchases(sub.intent.side) && sub.intent.quantity.raw > 0 && BuyGuarded(sub)
    requires FillFor(sub).FilledAt? && FillFor(sub).price == QuoteOf(sub).ask
    requires IsMarketType(sub.intent.orderType) || Marketable(sub.quotes, TermsOf(sub))
    ensures FillNotional(sub) <= Max(0, Estimate(sub).raw)
  {
    hide FillFor, Quotes.QuoteFor, Decimal.CheckedMul;
    var ask, quantity := QuoteOf(sub).ask, sub.intent.quantity;
    MulCommutes(ask, quantity);
    NotionalSign(ask, quantity);
    if ask.raw >= 0 && sub.intent.limitPrice.Some? {
      MulMonotone(quantity, ask, sub.intent.limitPrice.value);
    }
  }

  /** So a guarded submission leaves a solvent account solvent. */
  lemma GuardedKeepsSolvent(q: Quotient, a: Account, sub: Submission)
    requires Solvent(a) && Guarded(sub)
    ensures Solvent(Decide(q, a, sub).account)
  {
    hide Gate, Work, Estimate, Guarded, Covered, MeetsRules, Backs;
    if Gate(a.accountAlias, sub).None? {
      GatePasses(a.accountAlias, sub);
      GuardedIsCovered(sub);
      CoveredKeepsSolvent(q, a, sub);
    }
  }

  /** At a mid price that covers the half spread no sale needs a guard. */
  lemma SaneSaleIsGuarded(sub: Submission)
    requires Sane(sub)
    ensures SaleGuarded(sub) && (Guarded(sub) <==> Purchases(sub.intent.side) ==> BuyGuarded(sub))
  {
    hide Quotes.QuoteFor, BuyGuarded, SaneAt;
    SaneQuote(sub.quotes, sub.intent.instrument.id);
  }

  // ----- What a fill does to cash, and what is reserved meanwhile -----

  /** The trade a submission makes if it fills now. */
  function TradeNow(sub: Submission): Trade
    requires FillFor(sub).FilledAt?
  {
    TradeOf(sub, FillFor(sub).price)
  }

  /** A filled order moves cash by its worth exactly when neither the product nor the new balance
      overflows, and otherwise moves none; for a buy at no negative price with no negative cash
      only the product can. */
  lemma FillMovesCashExactly(q: Quotient, a: Account, sub: Submission)
    requires Decide(q, a, sub).outcome.IsAllowed() && FillFor(sub).FilledAt?
    ensures var t, after := TradeNow(sub), Decide(q, a, sub).account.cash;
            var moved := Moved(a.cash.raw, sub.intent.side, Worth(t));
            && (after.raw == moved <==> Priced(t) && FitsI128(moved))
            && (after.raw != moved ==> after == a.cash)
            && (Purchases(sub.intent.side) && t.price.raw >= 0 && a.cash.raw >= 0 ==>
                  (after.raw == moved <==> Priced(t)))
  {
    hide Gate, Work, Estimate, FillFor, Worth, Priced, CashAfter, MeetsRules, Backs, TermsOf, NewOrder;
    var t := TradeNow(sub);
    WorkCash(q, a, sub);
    WorkCash(q, Reserve(a, Estimate(sub)), sub);
    GateRefuses(a.accountAlias, sub);
    CashMovesExactly(a.cash, t);
    if t.price.raw >= 0 && Gate(a.accountAlias, sub).None? {
      GatePasses(a.accountAlias, sub);
      WorthOfPriced(t);
    }
  }

  lemma WorthOfPriced(t: Trade)
    requires t.price.raw >= 0 && t.quantity.raw >= 0
    ensures Priced(t) ==> 0 <= Worth(t) <= I128_MAX
  {
    ProductMonotone(t.quantity.raw, 0, t.price.raw);
  }

  /** The account inside a call that reserves, once the order is worked and before the release. */
  function BeforeRelease(q: Quotient, a: Account, sub: Submission): Account {
    Work(q, Reserve(a, Estimate(sub)), sub).account
  }

  /** Inside the call the reservation is the estimate. It is not negative exactly when the estimate
      is not, and within the cash that is left exactly when the cash at entry covers the fill and
      the estimate together. */
  lemma ReservedInsideCall(q: Quotient, a: Account, sub: Submission)
    requires Solvent(a) && Reserves(a, sub)
    ensures var inside := BeforeRelease(q, a, sub);
            && inside.reservedCash == Estimate(sub)
            && (inside.reservedCash.raw <= inside.cash.raw <==>
                  (FillFor(sub).FilledAt? ==> FillNotional(sub) + Estimate(sub).raw <= a.cash.raw))
  {
    hide Gate, Work, Estimate, FillFor, TermsOf, Trade.Notional;
    WorkCash(q, Reserve(a, Estimate(sub)), sub);
    WorkKeepsReservation(q, Reserve(a, Estimate(sub)), sub);
  }
}
