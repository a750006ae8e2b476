/** What the protocol does not promise: one input for each way in which a law can fail. */
module Limits {
  import opened Prelude
  import opened FixedDecimal
  import opened Timestamp
  import opened Records
  import opened PaperMarket
  import opened Ledger
  import opened Policy
  import opened AuditLog
  import opened Execution
  import opened Protocol
  import opened CashSafety
  import opened Runs

  // The decimal 1, the default half spread, and a mid price of 100.
  const ONE := Decimal(SCALE)
  const HALF_SPREAD := Decimal(500_000)
  const HUNDRED := Decimal(100 * SCALE)

  /** An order for `quantity` in the instrument `inst`, whose mid price is pinned. */
  function OrderFor(side: Side, orderType: OrderType, quantity: Decimal, limit: Option<Decimal>, mid: Decimal,
                    now: UtcTimestamp): Submission
  {
    Submission(
      TradeIntent("intent", "paper", Equity("inst"), side, orderType,
                  quantity, limit, None, None, UNIX_EPOCH, Finite(0.5), Paper, "key"),
      None, now, Quotes(map["inst" := mid], HALF_SPREAD), map[])
  }

  function Cash(units: Decimal): Account { NewAccount("paper", "USD", units, UNIX_EPOCH) }

  lemma OrderPasses(side: Side, orderType: OrderType, quantity: Decimal, limit: Option<Decimal>, mid: Decimal,
                    now: UtcTimestamp)
    requires quantity.raw > 0 && now.secs >= 0
    requires orderType.Market? || (orderType.Limit? && Positive(limit))
    ensures Gate("paper", OrderFor(side, orderType, quantity, limit, mid, now)).None?
  {
    hide ValidateTradeIntent, MeetsRules;
    var sub := OrderFor(side, orderType, quantity, limit, mid, now);
    assert sub.intent.idempotencyKey == "key" && "key"[0] !in WHITE_SPACE;
    RulesMet(sub.intent, sub.now, 0);
    ValidIntent(sub.intent, sub.now);
  }

  // ----- Cash -----

  /** One unit at market, with a limit price of one cent that the market order ignores. */
  const CHEAP_MARKET_BUY := OrderFor(Side.Buy, OrderType.Market, ONE, Some(Decimal(1_000_000)), HUNDRED, UNIX_EPOCH)

  /** Estimated at one cent, it passes against a balance of one unit and fills at 100.005. */
  lemma CheapMarketBuyOverdraws(q: Quotient)
    ensures Gate("paper", CHEAP_MARKET_BUY).None? && Sane(CHEAP_MARKET_BUY) && !Guarded(CHEAP_MARKET_BUY)
    ensures Decide(q, Cash(ONE), CHEAP_MARKET_BUY).account.cash.raw == 100_000_000 - 10_000_500_000
  {
    hide Gate, Work;
    var sub := CHEAP_MARKET_BUY;
    OrderPasses(Side.Buy, OrderType.Market, ONE, Some(Decimal(1_000_000)), HUNDRED, UNIX_EPOCH);
    assert sub.quotes.QuoteFor("inst").ask == Decimal(10_000_500_000);
    assert Estimate(sub) == Decimal(1_000_000);
    WorkCash(q, Reserve(Cash(ONE), Estimate(sub)), sub);
  }

  /** One unit with a limit price of 10^23, whose product with the quantity overflows. */
  const OVERFLOWING_LIMIT_BUY :=
    OrderFor(Side.Buy, OrderType.Limit, ONE, Some(Decimal(10_000_000_000_000_000_000_000_000_000_000)),
             HUNDRED, UNIX_EPOCH)

  /** The estimate counts as zero, so an empty account passes, and the order fills at 100.005. */
  lemma OverflowingEstimateOverdraws(q: Quotient)
    ensures Gate("paper", OVERFLOWING_LIMIT_BUY).None? && Sane(OVERFLOWING_LIMIT_BUY)
    ensures Estimate(OVERFLOWING_LIMIT_BUY) == D_ZERO && !Guarded(OVERFLOWING_LIMIT_BUY)
    ensures Decide(q, Cash(D_ZERO), OVERFLOWING_LIMIT_BUY).account.cash.raw == -10_000_500_000
  {
    hide Gate, Work, FillFor, Estimate, Guarded, Sane, CashAfter;
    var sub, inside := OVERFLOWING_LIMIT_BUY, Reserve(Cash(D_ZERO), D_ZERO);
    OrderPasses(Side.Buy, OrderType.Limit, ONE, sub.intent.limitPrice, HUNDRED, UNIX_EPOCH);
    LimitProductOverflows();
    WorkCash(q, inside, sub);
    UnitPaid(D_ZERO);
  }

  lemma LimitProductOverflows()
    ensures var sub := OVERFLOWING_LIMIT_BUY;
            && Sane(sub) && !Guarded(sub) && Estimate(sub) == D_ZERO
            && FillFor(sub) == FilledAt(Decimal(10_000_500_000))
  {
    var sub := OVERFLOWING_LIMIT_BUY;
    assert ONE.CheckedMul(sub.intent.limitPrice.value) == None;
    hide Decimal.CheckedMul;
    assert sub.quotes.QuoteFor("inst").ask == Decimal(10_000_500_000);
  }

  /** What one unit at 100.005 does to cash. */
  lemma UnitPaid(cash: Decimal)
    requires cash.raw >= 0
    ensures CashAfter(cash, Trade(Equity("inst"), Side.Buy, ONE, Decimal(10_000_500_000))).raw
            == cash.raw - 10_000_500_000
  {
  }

  /** One unit at market, at a pinned mid price of 0.001 under the default half spread. */
  const NEGATIVE_BID_SALE := OrderFor(Side.Sell, OrderType.Market, ONE, None, Decimal(100_000), UNIX_EPOCH)

  /** The bid is -0.004, so the sale takes cash from an account that has none. */
  lemma NegativeBidSaleOverdraws(q: Quotient)
    ensures Gate("paper", NEGATIVE_BID_SALE).None? && !Guarded(NEGATIVE_BID_SALE)
    ensures Decide(q, Cash(D_ZERO), NEGATIVE_BID_SALE).account.cash.raw == -400_000
  {
    hide Gate, Work;
    var sub := NEGATIVE_BID_SALE;
    OrderPasses(Side.Sell, OrderType.Market, ONE, None, Decimal(100_000), UNIX_EPOCH);
    assert sub.quotes.QuoteFor("inst").bid == Decimal(-400_000);
    WorkCash(q, Cash(D_ZERO), sub);
  }

  /** 10^22 units at market. */
  const HUGE_QUANTITY := Decimal(1_000_000_000_000_000_000_000_000_000_000)
  const HUGE_MARKET_BUY := OrderFor(Side.Buy, OrderType.Market, HUGE_QUANTITY, None, HUNDRED, UNIX_EPOCH)

  /** Both the estimate and the notional overflow, so an account without cash passes, and is left
      with 10^22 units it paid nothing for. No guard and no cash law objects. */
  lemma HugeMarketBuyIsFree(q: Quotient)
    ensures Guarded(HUGE_MARKET_BUY) && Sane(HUGE_MARKET_BUY)
    ensures var d := Decide(q, Cash(D_ZERO), HUGE_MARKET_BUY);
            && d.outcome.IsAllowed() && d.account.cash == D_ZERO
            && Holding(d.account.positions, "inst") == HUGE_QUANTITY.raw
    ensures FillFor(HUGE_MARKET_BUY).FilledAt? && !Priced(TradeNow(HUGE_MARKET_BUY))
  {
    hide Gate, Work, FillFor, Estimate, Priced, CashAfter, Guarded, Sane, Holding;
    var sub, a := HUGE_MARKET_BUY, Cash(D_ZERO);
    var inside := Reserve(a, D_ZERO);
    OrderPasses(Side.Buy, OrderType.Market, HUGE_QUANTITY, None, HUNDRED, UNIX_EPOCH);
    HugeProductsOverflow();
    WorkCash(q, inside, sub);
    WorkOutcome(q, inside, sub);
    AcceptanceIsAllowed(sub);
    FirstHolding(q, inside, sub);
    CashMovesExactly(inside.cash, TradeNow(sub));
  }

  lemma HugeProductsOverflow()
    ensures Guarded(HUGE_MARKET_BUY) && Sane(HUGE_MARKET_BUY) && Estimate(HUGE_MARKET_BUY) == D_ZERO
    ensures FillFor(HUGE_MARKET_BUY) == FilledAt(Decimal(10_000_500_000)) && !Priced(TradeNow(HUGE_MARKET_BUY))
  {
    assert HUGE_MARKET_BUY.quotes.QuoteFor("inst").ask == Decimal(10_000_500_000);
  }

  lemma AcceptanceIsAllowed(sub: Submission)
    ensures Acceptance(sub).IsAllowed()
  {
    hide CheckVenueProfile;
  }

  /** An account without positions holds what its first order fills. */
  lemma FirstHolding(q: Quotient, a: Account, sub: Submission)
    requires a.positions == [] && FillFor(sub).FilledAt?
    ensures Holding(Work(q, a, sub).account.positions, sub.intent.instrument.id) == TradeNow(sub).Signed().raw
  {
    hide Quotes.SimulateFill, FillOrder, CashAfter;
    TradeMovesHolding(q, [], TradeNow(sub), sub.intent.instrument.id);
  }

  // ----- Reservations -----

  /** One unit at market against a balance of 150. */
  const PLAIN_MARKET_BUY := OrderFor(Side.Buy, OrderType.Market, ONE, None, HUNDRED, UNIX_EPOCH)

  /** After the fill 100.005 is still reserved, and 49.995 is left. */
  lemma ReservedBeyondCash(q: Quotient)
    ensures Reserves(Cash(Decimal(15_000_000_000)), PLAIN_MARKET_BUY)
    ensures var inside := BeforeRelease(q, Cash(Decimal(15_000_000_000)), PLAIN_MARKET_BUY);
            inside.reservedCash.raw == 10_000_500_000 && inside.cash.raw == 4_999_500_000
  {
    hide Gate, Work;
    var sub, a := PLAIN_MARKET_BUY, Cash(Decimal(15_000_000_000));
    OrderPasses(Side.Buy, OrderType.Market, ONE, None, HUNDRED, UNIX_EPOCH);
    assert sub.quotes.QuoteFor("inst").ask == Decimal(10_000_500_000);
    assert Estimate(sub) == Decimal(10_000_500_000);
    WorkCash(q, Reserve(a, Estimate(sub)), sub);
    ReservedInsideCall(q, a, sub);
  }

  /** A market buy whose ignored limit price is -1. */
  const NEGATIVE_LIMIT_BUY :=
    OrderFor(Side.Buy, OrderType.Market, ONE, Some(Decimal(-100_000_000)), HUNDRED, UNIX_EPOCH)

  /** Inside the call less than nothing is reserved. */
  lemma ReservedBelowZero(q: Quotient)
    ensures Reserves(Cash(D_ZERO), NEGATIVE_LIMIT_BUY)
    ensures BeforeRelease(q, Cash(D_ZERO), NEGATIVE_LIMIT_BUY).reservedCash.raw == -100_000_000
  {
    hide Gate, Work;
    var sub := NEGATIVE_LIMIT_BUY;
    OrderPasses(Side.Buy, OrderType.Market, ONE, Some(Decimal(-100_000_000)), HUNDRED, UNIX_EPOCH);
    assert Estimate(sub) == Decimal(-100_000_000);
    ReservedInsideCall(q, Cash(D_ZERO), sub);
  }

  /** Reserving -1 on top of the minimum overflows and reserves nothing; releasing it does not
      overflow, so one unit of the reservation is lost. */
  lemma ReservationIsLost(q: Quotient)
    ensures var a := Cash(D_ZERO).(reservedCash := Decimal(I128_MIN));
            && Reserves(a, NEGATIVE_LIMIT_BUY)
            && Decide(q, a, NEGATIVE_LIMIT_BUY).account.reservedCash.raw == I128_MIN + 100_000_000
  {
    hide Gate, Work;
    var sub, a := NEGATIVE_LIMIT_BUY, Cash(D_ZERO).(reservedCash := Decimal(I128_MIN));
    OrderPasses(Side.Buy, OrderType.Market, ONE, Some(Decimal(-100_000_000)), HUNDRED, UNIX_EPOCH);
    assert Estimate(sub) == Decimal(-100_000_000);
    WorkKeepsReservation(q, Reserve(a, Estimate(sub)), sub);
  }

  // ----- Resubmission -----

  /** A plain order in the first second of the year 10000. */
  const LATE_BUY := OrderFor(Side.Buy, OrderType.Market, ONE, None, HUNDRED, UtcTimestamp(SECONDS_END, 0))

  /** A sale of 10^-8 at market; the pinned price can be read back, the bid below it cannot. */
  const MINIMUM_BID_SALE :=
    OrderFor(Side.Sell, OrderType.Market, Decimal(1), None, Decimal(I128_MIN + 500_000), UNIX_EPOCH)

  /** Submitting twice from an empty log: answered at first, and an error the second time. */
  ghost predicate Forgotten(env: Env, a: Account, sub: Submission) {
    var rs := Results(env, State(a, EMPTY_LOG), [sub, sub]);
    rs[0].Ok? && rs[0].value.outcome.IsAllowed() && rs[1] == Err(InvalidJson)
  }

  lemma UnreadableIsForgotten(env: Env, a: Account, sub: Submission)
    requires Exact(env.codec) && !Survives(a, sub) && Decide(env.quotient, a, sub).outcome.IsAllowed()
    ensures Forgotten(env, a, sub)
  {
    hide Survives, Decide, Run, Step, Exact, PolicyOutcome.IsAllowed;
    var s, subs := State(a, EMPTY_LOG), [sub, sub];
    EmptyLogIsGood(env);
    assert subs[..0] == [];
    RunOfNothing(env, s);
    ResubmissionGetsOriginal(env, s, subs, 0, 1);
    FreshStep(env, s, sub);
    ResultWhenReached(env, s, subs, 0);
  }

  lemma RunOfNothing(env: Env, s: State)
    ensures Run(env, s, []) == s
  {
  }

  /** A clock beyond the year 9999 makes a placed order unreadable. */
  lemma LateBuyIsForgotten(env: Env)
    requires Exact(env.codec)
    ensures Forgotten(env, Cash(Decimal(15_000_000_000)), LATE_BUY)
  {
    hide Gate, Work, Exact;
    var sub, a := LATE_BUY, Cash(Decimal(15_000_000_000));
    OrderPasses(Side.Buy, OrderType.Market, ONE, None, HUNDRED, UtcTimestamp(SECONDS_END, 0));
    assert sub.quotes.QuoteFor("inst").ask == Decimal(10_000_500_000);
    assert Estimate(sub) == Decimal(10_000_500_000);
    WorkOutcome(env.quotient, Reserve(a, Estimate(sub)), sub);
    UnreadableIsForgotten(env, a, sub);
  }

  /** So does a fill at the minimum, although everything that was submitted can be read. */
  lemma MinimumBidSaleIsForgotten(env: Env)
    requires Exact(env.codec)
    ensures var sub := MINIMUM_BID_SALE;
            && FourDigitYear(sub.now) && ReadableDecimal(sub.intent.quantity)
            && ReadableDecimal(sub.quotes.Mid("inst")) && FillFor(sub) == FilledAt(Decimal(I128_MIN))
    ensures Forgotten(env, Cash(D_ZERO), MINIMUM_BID_SALE)
  {
    hide Gate, Work, Exact;
    var sub, a := MINIMUM_BID_SALE, Cash(D_ZERO);
    OrderPasses(Side.Sell, OrderType.Market, Decimal(1), None, Decimal(I128_MIN + 500_000), UNIX_EPOCH);
    assert sub.quotes.QuoteFor("inst").bid == Decimal(I128_MIN);
    WorkOutcome(env.quotient, a, sub);
    UnreadableIsForgotten(env, a, sub);
  }

  /** A market sale carrying the minimum as the limit price it ignores. */
  const MINIMUM_LIMIT_SALE :=
    OrderFor(Side.Sell, OrderType.Market, ONE, Some(Decimal(I128_MIN)), HUNDRED, UNIX_EPOCH)

  lemma MinimumLimitSaleIsForgotten(env: Env)
    requires Exact(env.codec)
    ensures FourDigitYear(MINIMUM_LIMIT_SALE.now) && FillFor(MINIMUM_LIMIT_SALE) == FilledAt(Decimal(9_999_500_000))
    ensures Forgotten(env, Cash(D_ZERO), MINIMUM_LIMIT_SALE)
  {
    hide Gate, Work, Exact;
    var sub, a := MINIMUM_LIMIT_SALE, Cash(D_ZERO);
    OrderPasses(Side.Sell, OrderType.Market, ONE, Some(Decimal(I128_MIN)), HUNDRED, UNIX_EPOCH);
    assert sub.quotes.QuoteFor("inst").bid == Decimal(9_999_500_000);
    WorkOutcome(env.quotient, a, sub);
    UnreadableIsForgotten(env, a, sub);
  }

  /** The plain market buy, of another instrument of that id. */
  function PlainBuyOf(i: Instrument): Submission {
    PLAIN_MARKET_BUY.(intent := PLAIN_MARKET_BUY.intent.(instrument := i))
  }

  /** No gate looks at the instrument's expiry or decimals, so it is placed, and forgotten whenever
      one of them cannot be read back, though clock, quantity and fill price can. */
  lemma UnreadableInstrumentIsForgotten(env: Env, i: Instrument)
    requires Exact(env.codec) && i.id == "inst" && !ReadableInstrument(i)
    ensures FourDigitYear(PlainBuyOf(i).now) && PlainBuyOf(i).intent.limitPrice.None?
    ensures FillFor(PlainBuyOf(i)) == FilledAt(Decimal(10_000_500_000))
    ensures Forgotten(env, Cash(Decimal(15_000_000_000)), PlainBuyOf(i))
  {
    hide Gate, Work, Exact, Estimate, FillFor, Forgotten, ReadableInstrument, Acceptance;
    var sub, a := PlainBuyOf(i), Cash(Decimal(15_000_000_000));
    PlainBuyPasses(i);
    PlainBuyFills(i);
    WorkOutcome(env.quotient, Reserve(a, Estimate(sub)), sub);
    AcceptanceIsAllowed(sub);
    UnreadableIsForgotten(env, a, sub);
  }

  lemma PlainBuyPasses(i: Instrument)
    ensures Gate("paper", PlainBuyOf(i)).None?
  {
    hide ValidateTradeIntent, MeetsRules;
    var sub := PlainBuyOf(i);
    assert sub.intent.idempotencyKey == "key" && "key"[0] !in WHITE_SPACE;
    RulesMet(sub.intent, sub.now, 0);
    ValidIntent(sub.intent, sub.now);
  }

  lemma PlainBuyFills(i: Instrument)
    requires i.id == "inst"
    ensures FillFor(PlainBuyOf(i)) == FilledAt(Decimal(10_000_500_000))
    ensures Estimate(PlainBuyOf(i)) == Decimal(10_000_500_000)
  {
    assert PlainBuyOf(i).quotes.QuoteFor("inst").ask == Decimal(10_000_500_000);
  }

  /** A contract that expires in the first second of the year 10000, and one struck at the minimum. */
  const LATE_EXPIRY := Equity("inst").(expiry := Some(UtcTimestamp(SECONDS_END, 0)))
  const MINIMUM_STRIKE := Equity("inst").(strike := Some(Decimal(I128_MIN)))

  lemma LateExpiryIsForgotten(env: Env)
    requires Exact(env.codec)
    ensures Forgotten(env, Cash(Decimal(15_000_000_000)), PlainBuyOf(LATE_EXPIRY))
    ensures Forgotten(env, Cash(Decimal(15_000_000_000)), PlainBuyOf(MINIMUM_STRIKE))
  {
    hide Exact, Forgotten;
    UnreadableInstrumentIsForgotten(env, LATE_EXPIRY);
    UnreadableInstrumentIsForgotten(env, MINIMUM_STRIKE);
  }
}
