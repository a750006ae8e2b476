/** Cash, positions and fills: account.rs and order.rs. */
module Ledger {
  import opened Prelude
  import opened FixedDecimal
  import opened Timestamp
  import opened Records

  /** The f64 quotient behind approx_div, rounded and read back: any function at all. */
  type Quotient = (Decimal, Decimal) -> Readable

  function ApproxDiv(q: Quotient, n: Decimal, d: Decimal): (r: Decimal)
    ensures r.raw != I128_MIN && (d.raw == 0 ==> r.raw == 0)
  {
    if d.IsZero() then D_ZERO else q(n, d)
  }

  function OrZero(d: Option<Decimal>): Decimal { UnwrapOr(d, D_ZERO) }

  // ----- account.rs -----

  datatype Position = Position(instrument: Instrument, quantity: Decimal, averagePrice: Decimal)

  function Negate(d: Decimal): Decimal { UnwrapOr(D_ZERO.CheckedSub(d), d) }

  /** What a fill of signed quantity does to the position it meets. */
  function ApplySignedFill(q: Quotient, pos: Position, signed: Decimal, price: Decimal): Position {
    var sameDirection := pos.quantity.IsZero() || pos.quantity.IsNegative() == signed.IsNegative();
    var newQuantity := UnwrapOr(pos.quantity.CheckedAdd(signed), pos.quantity);
    var average :=
      if sameDirection then
        var prior := OrZero(pos.averagePrice.CheckedMul(pos.quantity.Abs()));
        var fill := OrZero(price.CheckedMul(signed.Abs()));
        if !newQuantity.Abs().IsZero() then
          ApproxDiv(q, UnwrapOr(prior.CheckedAdd(fill), prior), newQuantity.Abs())
        else pos.averagePrice
      else if newQuantity.IsZero() then D_ZERO
      else if pos.quantity.IsNegative() != newQuantity.IsNegative() then price
      else pos.averagePrice;
    Position(pos.instrument, newQuantity, average)
  }

  /** The index of the first position in `id`, or the length when there is none. */
  function Find(positions: seq<Position>, id: string): (i: nat)
    ensures i <= |positions|
    ensures i < |positions| ==> positions[i].instrument.id == id
    ensures forall j :: 0 <= j < i ==> positions[j].instrument.id != id
  {
    if positions == [] || positions[0].instrument.id == id then 0
    else 1 + Find(positions[1..], id)
  }

  datatype Account = Account(
    accountAlias: string, currency: string, cash: Decimal, reservedCash: Decimal,
    positions: seq<Position>, asOf: UtcTimestamp)
  {
    function BuyingPower(): Decimal {
      match cash.CheckedSub(reservedCash)
      case Some(d) => if d.IsNegative() then D_ZERO else d
      case None => D_ZERO
    }
  }

  function NewAccount(accountAlias: string, currency: string, cash: Decimal, asOf: UtcTimestamp): Account {
    Account(accountAlias, currency, cash, D_ZERO, [], asOf)
  }

  /** A new account holds its cash and nothing else. */
  lemma NewAccountHolds(accountAlias: string, currency: string, cash: Decimal, asOf: UtcTimestamp)
    ensures var a := NewAccount(accountAlias, currency, cash, asOf);
            && a.accountAlias == accountAlias && a.currency == currency && a.cash == cash && a.asOf == asOf
            && a.reservedCash.raw == 0 && a.positions == []
  {
  }

  datatype Trade = Trade(instrument: Instrument, side: Side, quantity: Decimal, price: Decimal) {
    function Notional(): Decimal { OrZero(price.CheckedMul(quantity)) }

    function Signed(): Decimal { if side.IsBuySide() then quantity else Negate(quantity) }
  }

  function CashAfter(cash: Decimal, t: Trade): Decimal {
    if t.side.IsBuySide() then UnwrapOr(cash.CheckedSub(t.Notional()), cash)
    else UnwrapOr(cash.CheckedAdd(t.Notional()), cash)
  }

  function PositionsAfter(q: Quotient, positions: seq<Position>, t: Trade): seq<Position> {
    var i := Find(positions, t.instrument.id);
    if i < |positions| then positions[i := ApplySignedFill(q, positions[i], t.Signed(), t.price)]
    else positions + [Position(t.instrument, t.Signed(), t.price)]
  }

  /** The whole effect of one fill on an account. */
  function ApplyTrade(q: Quotient, a: Account, t: Trade): Account {
    a.(cash := CashAfter(a.cash, t), positions := PositionsAfter(q, a.positions, t))
  }

  class AccountSnapshot {
    const accountAlias: string
    const currency: string
    var cash: Decimal
    var reservedCash: Decimal
    var positions: seq<Position>
    const asOf: UtcTimestamp

    constructor (accountAlias: string, currency: string, cash: Decimal, asOf: UtcTimestamp)
      ensures State() == NewAccount(accountAlias, currency, cash, asOf)
    {
      this.accountAlias := accountAlias;
      this.currency := currency;
      this.cash := cash;
      this.reservedCash := D_ZERO;
      this.positions := [];
      this.asOf := asOf;
    }

    function State(): Account
      reads this
    {
      Account(accountAlias, currency, cash, reservedCash, positions, asOf)
    }

    method ApplyFill(q: Quotient, instrument: Instrument, side: Side, quantity: Decimal, price: Decimal)
      modifies this
      ensures State() == ApplyTrade(q, old(State()), Trade(instrument, side, quantity, price))
    {
      var notional := OrZero(price.CheckedMul(quantity));
      if side.IsBuySide() {
        cash := UnwrapOr(cash.CheckedSub(notional), cash);
      } else {
        cash := UnwrapOr(cash.CheckedAdd(notional), cash);
      }
      var signedQuantity := if side.IsBuySide() then quantity else Negate(quantity);
      var i := Find(positions, instrument.id);
      if i < |positions| {
        positions := positions[i := ApplySignedFill(q, positions[i], signedQuantity, price)];
      } else {
        positions := positions + [Position(instrument, signedQuantity, price)];
      }
    }
  }

  // ----- Positions refine a map from instruments to signed quantities -----

  ghost predicate Distinct(positions: seq<Position>) {
    forall i, j :: 0 <= i < j < |positions| ==> positions[i].instrument.id != positions[j].instrument.id
  }

  /** A flat position has no average price. */
  ghost predicate FlatUnpriced(positions: seq<Position>) {
    forall i :: 0 <= i < |positions| ==> positions[i].quantity.raw == 0 ==> positions[i].averagePrice.raw == 0
  }

  function Holding(positions: seq<Position>, id: string): int {
    var i := Find(positions, id);
    if i < |positions| then positions[i].quantity.raw else 0
  }

  /** By how much a trade changes the quantity held; the minimum has no negative to sell. */
  function Delta(t: Trade): i128 {
    match t.side
    case Buy | BuyToCover => t.quantity.raw
    case Sell | SellShort => if t.quantity.raw == I128_MIN then I128_MIN else 0 - t.quantity.raw
  }

  lemma SignedIsDelta(t: Trade)
    ensures t.Signed() == Decimal(Delta(t))
  {
  }

  /** One fill moves the holding of its own instrument, up for a buy and down for a sale, unless the
      sum overflows, in which case the holding stays; every other holding stays. */
  lemma TradeMovesHolding(q: Quotient, positions: seq<Position>, t: Trade, id: string)
    requires Distinct(positions)
    ensures Distinct(PositionsAfter(q, positions, t))
    ensures Holding(PositionsAfter(q, positions, t), id) ==
              if id == t.instrument.id && FitsI128(Holding(positions, id) + Delta(t))
              then Holding(positions, id) + Delta(t)
              else Holding(positions, id)
  {
    var after := PositionsAfter(q, positions, t);
    var i := Find(positions, t.instrument.id);
    SignedIsDelta(t);
    if i < |positions| {
      assert forall j :: 0 <= j < |positions| ==> after[j].instrument == positions[j].instrument;
      assert Distinct(after);
      SameIdsSameFind(positions, after, id);
    } else {
      assert Distinct(after);
      FindAfterAppend(positions, after[|positions|], id);
    }
  }

  /** A fill in an instrument that is not held opens one position, at the fill price; a fill in one
      that is held updates that position. No other position, and nothing else but cash, changes. */
  lemma TradeChangesOnePosition(q: Quotient, a: Account, t: Trade)
    ensures var p, i := ApplyTrade(q, a, t).positions, Find(a.positions, t.instrument.id);
            && Find(p, t.instrument.id) == i < |p|
            && |p| == (if i < |a.positions| then |a.positions| else |a.positions| + 1)
            && p[i] == (if i < |a.positions|
                        then ApplySignedFill(q, a.positions[i], Decimal(Delta(t)), t.price)
                        else Position(t.instrument, Decimal(Delta(t)), t.price))
            && forall j :: 0 <= j < |a.positions| && j != i ==> p[j] == a.positions[j]
    ensures ApplyTrade(q, a, t).(cash := a.cash, positions := a.positions) == a
  {
    hide ApplySignedFill, CashAfter;
    SignedIsDelta(t);
    var p, i := ApplyTrade(q, a, t).positions, Find(a.positions, t.instrument.id);
    if i < |a.positions| {
      KeepsInstrument(q, a.positions[i], t.Signed(), t.price);
      assert forall j :: 0 <= j < |p| ==> p[j].instrument.id == a.positions[j].instrument.id;
      SameIdsSameFind(a.positions, p, t.instrument.id);
    } else {
      FindAfterAppend(a.positions, p[i], t.instrument.id);
    }
  }

  lemma KeepsInstrument(q: Quotient, pos: Position, signed: Decimal, price: Decimal)
    ensures ApplySignedFill(q, pos, signed, price).instrument == pos.instrument
  {
    hide ApproxDiv, Decimal.CheckedMul;
  }

  lemma {:induction false} SameIdsSameFind(p: seq<Position>, r: seq<Position>, id: string)
    requires |p| == |r| && forall j :: 0 <= j < |p| ==> p[j].instrument.id == r[j].instrument.id
    ensures Find(p, id) == Find(r, id)
  {
    if p != [] {
      SameIdsSameFind(p[1..], r[1..], id);
    }
  }

  lemma {:induction false} FindAfterAppend(p: seq<Position>, x: Position, id: string)
    ensures Find(p + [x], id) == if Find(p, id) < |p| then Find(p, id)
                                 else if x.instrument.id == id then |p| else |p| + 1
  {
    if p != [] {
      assert (p + [x])[1..] == p[1..] + [x];
      FindAfterAppend(p[1..], x, id);
    } else {
      assert p + [x] == [x];
    }
  }

  lemma TradeKeepsFlatUnpriced(q: Quotient, positions: seq<Position>, t: Trade)
    requires FlatUnpriced(positions) && t.quantity.raw > 0
    ensures FlatUnpriced(PositionsAfter(q, positions, t))
  {
  }

  /** A fill against a position keeps the average price while it only reduces, clears it when it
      closes, and starts afresh at the fill price when it flips the sign. */
  lemma OpposingFillPrice(q: Quotient, pos: Position, signed: Decimal, price: Decimal)
    requires pos.quantity.raw < 0 < signed.raw || signed.raw < 0 < pos.quantity.raw
    ensures var r := ApplySignedFill(q, pos, signed, price);
            && r.quantity.raw == pos.quantity.raw + signed.raw
            && r.averagePrice == if r.quantity.raw == 0 then D_ZERO
                                 else if (r.quantity.raw > 0) == (pos.quantity.raw > 0) then pos.averagePrice
                                 else price
  {
    hide Decimal.CheckedMul, ApproxDiv;
  }

  /** What a notional stands for, in units of 10^-16: nothing when the product overflows. */
  function Counted(price: Decimal, quantity: Decimal): int {
    if FitsI128(price.raw * quantity.raw) then price.raw * quantity.raw else 0
  }

  /** Two notionals truncated apart always have a representable sum, which is off their joint
      exact value by less than two units of 10^-8, and never above it for prices that are not
      negative. */
  lemma CostOfBoth(p: Decimal, x: Decimal, r: Decimal, y: Decimal) returns (total: Decimal)
    ensures var prior := OrZero(p.CheckedMul(x));
            prior.CheckedAdd(OrZero(r.CheckedMul(y))) == Some(total)
    ensures var cost := Counted(p, x) + Counted(r, y);
            && cost - 2 * SCALE < total.raw * SCALE < cost + 2 * SCALE
            && (Counted(p, x) >= 0 && Counted(r, y) >= 0 ==> total.raw * SCALE <= cost)
  {
    hide Decimal.CheckedMul, OrZero, Counted;
    NotionalIsTruncated(p, x);
    NotionalIsTruncated(r, y);
    total := Decimal(OrZero(p.CheckedMul(x)).raw + OrZero(r.CheckedMul(y)).raw);
  }

  lemma NotionalIsTruncated(p: Decimal, x: Decimal)
    ensures var n := OrZero(p.CheckedMul(x)).raw;
            && I128_MIN / 2 < n <= I128_MAX / 2
            && Counted(p, x) - SCALE < n * SCALE < Counted(p, x) + SCALE
            && (Counted(p, x) >= 0 ==> n * SCALE <= Counted(p, x))
  {
    var product := p.raw * x.raw;
    assert product < 0 ==> TruncDiv(product, SCALE) == -(-product / SCALE);
  }

  /** A fill that adds to a position, or reopens a flat one, makes its average price the f64
      quotient of the cost of both, off by less than two units, by the new size. */
  lemma AddingFillPrice(q: Quotient, pos: Position, signed: Decimal, price: Decimal) returns (total: Decimal)
    requires pos.quantity.IsZero() || pos.quantity.IsNegative() == signed.IsNegative()
    ensures var r, sum := ApplySignedFill(q, pos, signed, price), pos.quantity.raw + signed.raw;
            && r.quantity.raw == (if FitsI128(sum) then sum else pos.quantity.raw)
            && r.averagePrice == (if r.quantity.IsZero() then pos.averagePrice else q(total, r.quantity.Abs()))
    ensures var cost := Counted(pos.averagePrice, pos.quantity.Abs()) + Counted(price, signed.Abs());
            && cost - 2 * SCALE < total.raw * SCALE < cost + 2 * SCALE
            && (pos.averagePrice.raw >= 0 && price.raw >= 0 && pos.quantity.raw > I128_MIN && signed.raw > I128_MIN
                ==> total.raw * SCALE <= cost)
  {
    hide Decimal.CheckedMul, Counted;
    total := CostOfBoth(pos.averagePrice, pos.quantity.Abs(), price, signed.Abs());
    CountedSign(pos.averagePrice, pos.quantity.Abs());
    CountedSign(price, signed.Abs());
  }

  lemma CountedSign(price: Decimal, quantity: Decimal)
    ensures price.raw >= 0 && quantity.raw >= 0 ==> Counted(price, quantity) >= 0
  {
    if price.raw >= 0 && quantity.raw >= 0 {
      ProductMonotone(price.raw, 0, quantity.raw);
    }
  }

  /** Applies trades one after another. */
  function ApplyTrades(q: Quotient, a: Account, ts: seq<Trade>): Account {
    if ts == [] then a else ApplyTrade(q, ApplyTrades(q, a, ts[..|ts| - 1]), ts[|ts| - 1])
  }

  /** The signed sum of the quantities traded in `id`. */
  function Net(ts: seq<Trade>, id: string): int {
    if ts == [] then 0
    else
      var t := ts[|ts| - 1];
      Net(ts[..|ts| - 1], id)
      + (if t.instrument.id != id then 0
         else match t.side
              case Buy | BuyToCover => t.quantity.raw
              case Sell | SellShort => 0 - t.quantity.raw)
  }

  ghost predicate PositiveQuantities(ts: seq<Trade>) {
    forall i :: 0 <= i < |ts| ==> ts[i].quantity.raw > 0
  }

  lemma NoPositions(id: string)
    ensures Distinct([]) && FlatUnpriced([]) && Holding([], id) == 0
  {
  }

  /** No running net of the trades in `id` overflows. */
  ghost predicate NetFits(ts: seq<Trade>, id: string) {
    forall k :: 0 <= k <= |ts| ==> FitsI128(Net(ts[..k], id))
  }

  /** After every trade the account holds the net of what was traded in `id` so far. */
  ghost predicate HeldThroughout(q: Quotient, a: Account, ts: seq<Trade>, id: string) {
    forall k :: 0 <= k <= |ts| ==> Holding(ApplyTrades(q, a, ts[..k]).positions, id) == Net(ts[..k], id)
  }

  /** After any positive fills from an empty account the ids are distinct and flat positions are
      unpriced; each holding is the net of its fills, all along, exactly when no running net of
      that instrument overflows. */
  lemma {:induction false} PositionsRefineMap(q: Quotient, a: Account, ts: seq<Trade>, id: string)
    requires a.positions == [] && PositiveQuantities(ts)
    ensures Distinct(ApplyTrades(q, a, ts).positions) && FlatUnpriced(ApplyTrades(q, a, ts).positions)
    ensures HeldThroughout(q, a, ts, id) <==> NetFits(ts, id)
    ensures NetFits(ts, id) ==> Holding(ApplyTrades(q, a, ts).positions, id) == Net(ts, id)
  {
    hide PositionsAfter, CashAfter, Distinct, FlatUnpriced, Holding, HeldThroughout, NetFits, Net;
    if ts == [] {
      NoPositions(id);
      NothingHeld(q, a, id);
    } else {
      var init, t := ts[..|ts| - 1], ts[|ts| - 1];
      PositionsRefineMap(q, a, init, id);
      var p := ApplyTrades(q, a, init).positions;
      TradeMovesHolding(q, p, t, id);
      TradeKeepsFlatUnpriced(q, p, t);
      NetOfLast(ts, id);
      HeldExtends(q, a, ts, id);
    }
  }

  lemma NothingHeld(q: Quotient, a: Account, id: string)
    requires a.positions == []
    ensures Net([], id) == 0 && HeldThroughout(q, a, [], id) && NetFits([], id)
  {
  }

  /** A positive trade in `id` changes the net, by what it adds to the holding. */
  lemma NetOfLast(ts: seq<Trade>, id: string)
    requires ts != [] && ts[|ts| - 1].quantity.raw > 0
    ensures var t := ts[|ts| - 1];
            && Net(ts, id) == Net(ts[..|ts| - 1], id) + (if t.instrument.id == id then Delta(t) else 0)
            && Delta(t) != 0
  {
  }

  lemma HeldExtends(q: Quotient, a: Account, ts: seq<Trade>, id: string)
    requires ts != []
    ensures var init := ts[..|ts| - 1];
            && (HeldThroughout(q, a, ts, id) <==>
                  (HeldThroughout(q, a, init, id) && Holding(ApplyTrades(q, a, ts).positions, id) == Net(ts, id)))
            && (NetFits(ts, id) <==> (NetFits(init, id) && FitsI128(Net(ts, id))))
            && (NetFits(init, id) ==> FitsI128(Net(init, id)))
            && (HeldThroughout(q, a, init, id) ==>
                  Holding(ApplyTrades(q, a, init).positions, id) == Net(init, id))
  {
    hide ApplyTrades, Net, Holding;
    var init := ts[..|ts| - 1];
    assert ts[..|ts|] == ts && init[..|init|] == init;
    assert forall k :: 0 <= k <= |init| ==> init[..k] == ts[..k];
  }

  // ----- Cash conservation -----

  /** What a trade is worth, rounded toward zero as the code rounds, however large. */
  function Worth(t: Trade): int { TruncDiv(t.price.raw * t.quantity.raw, SCALE) }

  /** Whether the product of price and quantity is representable before it is rescaled. */
  predicate Priced(t: Trade) { FitsI128(t.price.raw * t.quantity.raw) }

  function Bought(ts: seq<Trade>): int {
    if ts == [] then 0
    else Bought(ts[..|ts| - 1]) + match ts[|ts| - 1].side
                                   case Buy | BuyToCover => Worth(ts[|ts| - 1])
                                   case Sell | SellShort => 0
  }

  function Sold(ts: seq<Trade>): int {
    if ts == [] then 0
    else Sold(ts[..|ts| - 1]) + match ts[|ts| - 1].side
                                 case Buy | BuyToCover => 0
                                 case Sell | SellShort => Worth(ts[|ts| - 1])
  }

  /** What an opening balance should come to. */
  function Balance(cash: int, ts: seq<Trade>): int { cash - Bought(ts) + Sold(ts) }

  /** Cash after a total of `cost` changes hands on one side. */
  function Moved(cash: int, side: Side, cost: int): int {
    match side
    case Buy | BuyToCover => cash - cost
    case Sell | SellShort => cash + cost
  }

  /** A fill moves cash by its worth exactly when neither its product nor the new balance
      overflows; otherwise it moves no cash at all. */
  lemma CashMovesExactly(cash: Decimal, t: Trade)
    ensures var moved := Moved(cash.raw, t.side, Worth(t));
            && (CashAfter(cash, t).raw == moved <==> Priced(t) && FitsI128(moved))
            && (!(Priced(t) && FitsI128(moved)) ==> CashAfter(cash, t) == cash)
  {
    hide TruncDiv;
    NotionalIsWorth(t);
    assert !Priced(t) ==> Worth(t) != 0 by {
      LargeIsWorthSomething(t.price.raw * t.quantity.raw);
    }
  }

  lemma NotionalIsWorth(t: Trade)
    ensures t.Notional().raw == if Priced(t) then Worth(t) else 0
  {
    WorthFits(t.price.raw * t.quantity.raw);
  }

  lemma WorthFits(product: int)
    ensures FitsI128(product) ==> FitsI128(TruncDiv(product, SCALE))
  {
  }

  lemma LargeIsWorthSomething(product: int)
    ensures !FitsI128(product) ==> TruncDiv(product, SCALE) != 0
  {
  }

  ghost predicate AllPriced(ts: seq<Trade>) { forall k :: 0 <= k < |ts| ==> Priced(ts[k]) }

  /** No running balance overflows. */
  ghost predicate BalanceFits(cash: int, ts: seq<Trade>) {
    forall k :: 0 <= k <= |ts| ==> FitsI128(Balance(cash, ts[..k]))
  }

  /** After every trade the cash is the opening cash less what was bought plus what was sold. */
  ghost predicate BalancedThroughout(q: Quotient, a: Account, ts: seq<Trade>) {
    forall k :: 0 <= k <= |ts| ==> ApplyTrades(q, a, ts[..k]).cash.raw == Balance(a.cash.raw, ts[..k])
  }

  /** The books balance all along exactly when no product and no running balance overflows. */
  lemma {:induction false} CashConservation(q: Quotient, a: Account, ts: seq<Trade>)
    ensures BalancedThroughout(q, a, ts) <==> AllPriced(ts) && BalanceFits(a.cash.raw, ts)
    ensures BalancedThroughout(q, a, ts) ==> ApplyTrades(q, a, ts).cash.raw == Balance(a.cash.raw, ts)
  {
    hide CashAfter, PositionsAfter, Worth, Priced, AllPriced, BalanceFits, BalancedThroughout, Balance;
    if ts == [] {
      NothingTraded(q, a);
    } else {
      var init, t := ts[..|ts| - 1], ts[|ts| - 1];
      CashConservation(q, a, init);
      CashMovesExactly(ApplyTrades(q, a, init).cash, t);
      BalanceOfLast(a.cash.raw, ts);
      BalanceExtends(q, a, ts);
    }
  }

  lemma NothingTraded(q: Quotient, a: Account)
    ensures Balance(a.cash.raw, []) == a.cash.raw
    ensures BalancedThroughout(q, a, []) && AllPriced([]) && BalanceFits(a.cash.raw, [])
  {
  }

  lemma BalanceOfLast(cash: int, ts: seq<Trade>)
    requires ts != []
    ensures var init, t := ts[..|ts| - 1], ts[|ts| - 1];
            Balance(cash, ts) == Moved(Balance(cash, init), t.side, Worth(t))
  {
    hide Worth;
  }

  lemma BalanceExtends(q: Quotient, a: Account, ts: seq<Trade>)
    requires ts != []
    ensures var init := ts[..|ts| - 1];
            && (AllPriced(ts) <==> (AllPriced(init) && Priced(ts[|ts| - 1])))
            && (BalanceFits(a.cash.raw, ts) <==>
                  (BalanceFits(a.cash.raw, init) && FitsI128(Balance(a.cash.raw, ts))))
            && (BalancedThroughout(q, a, ts) <==>
                  (BalancedThroughout(q, a, init) && ApplyTrades(q, a, ts).cash.raw == Balance(a.cash.raw, ts)))
  {
    hide ApplyTrades, Balance, Priced;
    var init := ts[..|ts| - 1];
    assert ts[..|ts|] == ts;
    assert forall k :: 0 <= k <= |init| ==> init[..k] == ts[..k];
  }

  // ----- Splitting a fill -----

  /** One trade a part, all on one side at one price. */
  function Parts(instrument: Instrument, side: Side, price: Decimal, quantities: seq<Decimal>): (ts: seq<Trade>)
    ensures |ts| == |quantities|
  {
    seq(|quantities|, i requires 0 <= i < |quantities| => Trade(instrument, side, quantities[i], price))
  }

  function Sum(quantities: seq<Decimal>): int {
    if quantities == [] then 0 else Sum(quantities[..|quantities| - 1]) + quantities[|quantities| - 1].raw
  }

  /** The sum of the truncated notionals of the parts. */
  function SplitCost(price: Decimal, quantities: seq<Decimal>): int {
    if quantities == [] then 0
    else SplitCost(price, quantities[..|quantities| - 1])
         + price.raw * quantities[|quantities| - 1].raw / SCALE
  }

  ghost predicate NonNegative(quantities: seq<Decimal>) {
    forall i :: 0 <= i < |quantities| ==> quantities[i].raw >= 0
  }

  lemma {:induction false} SplitCostBound(price: Decimal, quantities: seq<Decimal>)
    requires price.raw >= 0 && NonNegative(quantities) && |quantities| >= 1
    ensures var whole := price.raw * Sum(quantities) / SCALE;
            whole - (|quantities| - 1) <= SplitCost(price, quantities) <= whole
  {
    var n := |quantities| - 1;
    var init, last := quantities[..n], quantities[n];
    if n == 0 {
      assert Sum(init) == 0 && SplitCost(price, init) == 0;
    } else {
      SplitCostBound(price, init);
      FloorOfSum(price.raw, Sum(init), last.raw);
    }
  }

  lemma FloorOfSum(p: int, x: int, y: int)
    ensures p * x / SCALE + p * y / SCALE <= p * (x + y) / SCALE <= p * x / SCALE + p * y / SCALE + 1
  {
    var u, v := p * x, p * y;
    assert p * (x + y) == u + v;
  }

  lemma {:induction false} SumNonNegative(quantities: seq<Decimal>)
    requires NonNegative(quantities)
    ensures Sum(quantities) >= 0
    ensures forall i :: 0 <= i < |quantities| ==> quantities[i].raw <= Sum(quantities)
  {
    if quantities != [] {
      SumNonNegative(quantities[..|quantities| - 1]);
    }
  }

  lemma PartWorth(t: Trade)
    requires 0 <= t.price.raw * t.quantity.raw <= I128_MAX
    ensures Priced(t) && Worth(t) == t.price.raw * t.quantity.raw / SCALE >= 0
  {
  }

  lemma {:induction false} PartsCost(q: Quotient, a: Account, instrument: Instrument, side: Side,
                                     price: Decimal, quantities: seq<Decimal>)
    requires price.raw >= 0 && NonNegative(quantities)
    requires FitsI128(price.raw * Sum(quantities))
    requires FitsI128(Moved(a.cash.raw, side, SplitCost(price, quantities)))
    ensures SplitCost(price, quantities) >= 0
    ensures ApplyTrades(q, a, Parts(instrument, side, price, quantities)).cash.raw
            == Moved(a.cash.raw, side, SplitCost(price, quantities))
  {
    hide CashAfter, PositionsAfter, Worth, Priced;
    var ts := Parts(instrument, side, price, quantities);
    if quantities != [] {
      var n := |quantities| - 1;
      var init, last := quantities[..n], quantities[n];
      SumNonNegative(init);
      SumNonNegative(quantities);
      ProductMonotone(price.raw, Sum(init), Sum(quantities));
      ProductMonotone(price.raw, last.raw, Sum(quantities));
      SplitCostNonNegative(price, init);
      assert ts[n] == Trade(instrument, side, last, price);
      PartWorth(ts[n]);
      PartsCost(q, a, instrument, side, price, init);
      assert ts[..n] == Parts(instrument, side, price, init);
      CashMovesExactly(ApplyTrades(q, a, ts[..n]).cash, ts[n]);
    }
  }

  lemma {:induction false} SplitCostNonNegative(price: Decimal, quantities: seq<Decimal>)
    requires price.raw >= 0 && NonNegative(quantities)
    ensures SplitCost(price, quantities) >= 0
  {
    if quantities != [] {
      var n := |quantities| - 1;
      SplitCostNonNegative(price, quantities[..n]);
      ProductMonotone(price.raw, 0, quantities[n].raw);
    }
  }

  /** Filling in k parts at one price never moves more cash than filling at once, and at most
      k - 1 units of 10^-8 less, on either side of the market. */
  lemma SplitFillBound(q: Quotient, a: Account, instrument: Instrument, side: Side, price: Decimal,
                       quantities: seq<Decimal>, whole: Decimal)
    requires price.raw >= 0 && NonNegative(quantities) && |quantities| >= 1
    requires whole.raw == Sum(quantities) && FitsI128(price.raw * whole.raw)
    requires FitsI128(Moved(a.cash.raw, side, price.raw * whole.raw / SCALE))
    ensures var once := ApplyTrade(q, a, Trade(instrument, side, whole, price)).cash.raw;
            var split := ApplyTrades(q, a, Parts(instrument, side, price, quantities)).cash.raw;
            if side.Buy? || side.BuyToCover? then once <= split <= once + (|quantities| - 1)
            else once - (|quantities| - 1) <= split <= once
  {
    hide PositionsAfter;
    SplitCostBound(price, quantities);
    SplitCostNonNegative(price, quantities);
    SumNonNegative(quantities);
    ProductMonotone(price.raw, 0, whole.raw);
    PartsCost(q, a, instrument, side, price, quantities);
  }

  // ----- order.rs -----

  /** Records one fill on an order. */
  function FillOrder(q: Quotient, o: Order, fill: Fill): Order {
    var average := match o.averageFillPrice case Some(p) => p case None => D_ZERO;
    var prior := OrZero(average.CheckedMul(o.filledQuantity));
    var fillNotional := OrZero(fill.price.CheckedMul(fill.quantity));
    var newFilled := UnwrapOr(o.filledQuantity.CheckedAdd(fill.quantity), o.filledQuantity);
    o.(averageFillPrice :=
         if newFilled.IsZero() then o.averageFillPrice
         else Some(ApproxDiv(q, UnwrapOr(prior.CheckedAdd(fillNotional), prior), newFilled)),
       filledQuantity := newFilled,
       updatedAt := fill.filledAt,
       fills := o.fills + [fill],
       state := if newFilled.raw >= o.terms.quantity.raw then OrderState.Filled else PartiallyFilled)
  }

  function NewOrder(terms: OrderTerms): Order {
    Order(terms, Validated, D_ZERO, None, [], terms.createdAt)
  }

  /** An order while it is being worked on. */
  class WorkingOrder {
    const terms: OrderTerms
    var state: OrderState
    var filledQuantity: Decimal
    var averageFillPrice: Option<Decimal>
    var fills: seq<Fill>
    var updatedAt: UtcTimestamp

    constructor (terms: OrderTerms)
      ensures Snapshot() == NewOrder(terms)
    {
      this.terms := terms;
      state := Validated;
      filledQuantity := D_ZERO;
      averageFillPrice := None;
      fills := [];
      updatedAt := terms.createdAt;
    }

    function Snapshot(): Order
      reads this
    {
      Order(terms, state, filledQuantity, averageFillPrice, fills, updatedAt)
    }

    method ApplyFill(q: Quotient, fill: Fill)
      modifies this
      ensures Snapshot() == FillOrder(q, old(Snapshot()), fill)
    {
      hide Decimal.CheckedMul, Decimal.CheckedAdd, UnwrapOr, OrZero, ApproxDiv;
      var average := if averageFillPrice.Some? then averageFillPrice.value else D_ZERO;
      var priorNotional := OrZero(average.CheckedMul(filledQuantity));
      var fillNotional := OrZero(fill.price.CheckedMul(fill.quantity));
      var newFilled := UnwrapOr(filledQuantity.CheckedAdd(fill.quantity), filledQuantity);
      if !newFilled.IsZero() {
        var total := UnwrapOr(priorNotional.CheckedAdd(fillNotional), priorNotional);
        averageFillPrice := Some(ApproxDiv(q, total, newFilled));
      }
      filledQuantity := newFilled;
      updatedAt := fill.filledAt;
      fills := fills + [fill];
      state := if filledQuantity.raw >= terms.quantity.raw then OrderState.Filled else PartiallyFilled;
    }
  }

  /** What one fill does to an order, leaving the average price aside. */
  lemma FillOrderAdds(q: Quotient, o: Order, fill: Fill)
    ensures var r := FillOrder(q, o, fill);
            var sum := o.filledQuantity.raw + fill.quantity.raw;
            && r.terms == o.terms && r.fills == o.fills + [fill] && r.updatedAt == fill.filledAt
            && r.filledQuantity.raw == (if FitsI128(sum) then sum else o.filledQuantity.raw)
            && r.state == (if r.filledQuantity.raw >= o.terms.quantity.raw then OrderState.Filled else PartiallyFilled)
            && (r.state.IsTerminal() <==> r.filledQuantity.raw >= o.terms.quantity.raw)
  {
    hide Decimal.CheckedMul, ApproxDiv;
  }

  /** Its average price becomes the f64 quotient of everything paid so far, off by less than two
      units of 10^-8, by everything filled. */
  lemma AverageFillPrice(q: Quotient, o: Order, fill: Fill) returns (total: Decimal)
    ensures var r := FillOrder(q, o, fill);
            r.averageFillPrice == if r.filledQuantity.IsZero() then o.averageFillPrice
                                  else Some(q(total, r.filledQuantity))
    ensures var average := UnwrapOr(o.averageFillPrice, D_ZERO);
            var cost := Counted(average, o.filledQuantity) + Counted(fill.price, fill.quantity);
            && cost - 2 * SCALE < total.raw * SCALE < cost + 2 * SCALE
            && (average.raw >= 0 && o.filledQuantity.raw >= 0 && fill.price.raw >= 0 && fill.quantity.raw >= 0
                ==> total.raw * SCALE <= cost)
  {
    hide Decimal.CheckedMul, Counted;
    var average := UnwrapOr(o.averageFillPrice, D_ZERO);
    total := CostOfBoth(average, o.filledQuantity, fill.price, fill.quantity);
    CountedSign(average, o.filledQuantity);
    CountedSign(fill.price, fill.quantity);
  }

  function FillAll(q: Quotient, o: Order, fs: seq<Fill>): Order {
    if fs == [] then o else FillOrder(q, FillAll(q, o, fs[..|fs| - 1]), fs[|fs| - 1])
  }

  function FillSum(fs: seq<Fill>): int {
    if fs == [] then 0 else FillSum(fs[..|fs| - 1]) + fs[|fs| - 1].quantity.raw
  }

  ghost predicate NonNegativeFills(fs: seq<Fill>) {
    forall i :: 0 <= i < |fs| ==> fs[i].quantity.raw >= 0
  }

  lemma {:induction false} FillsAreRecorded(q: Quotient, terms: OrderTerms, fs: seq<Fill>)
    requires NonNegativeFills(fs)
    ensures var o := FillAll(q, NewOrder(terms), fs);
            && o.terms == terms && o.fills == fs && FillSum(fs) >= 0
            && (o.filledQuantity.raw == FillSum(fs) <==> FitsI128(FillSum(fs)))
  {
    hide FillOrder, OrderState.IsTerminal;
    if fs != [] {
      var init := fs[..|fs| - 1];
      FillsAreRecorded(q, terms, init);
      FillOrderAdds(q, FillAll(q, NewOrder(terms), init), fs[|fs| - 1]);
      assert fs == init + [fs[|fs| - 1]];
    }
  }

  /** Over any fills of non-negative quantity, the recorded fills are exactly those applied, and
      the filled quantity is their sum exactly when that sum is representable; the order is then
      terminal exactly when the sum reaches its quantity. */
  lemma FilledQuantityIsSum(q: Quotient, terms: OrderTerms, fs: seq<Fill>)
    requires NonNegativeFills(fs)
    ensures var o := FillAll(q, NewOrder(terms), fs);
            && o.terms == terms && o.fills == fs && FillSum(fs) >= 0
            && (o.filledQuantity.raw == FillSum(fs) <==> FitsI128(FillSum(fs)))
    ensures fs != [] && FitsI128(FillSum(fs)) ==>
              var filled := FillSum(fs) >= terms.quantity.raw;
              var state := FillAll(q, NewOrder(terms), fs).state;
              state == (if filled then OrderState.Filled else PartiallyFilled) && (state.IsTerminal() <==> filled)
  {
    hide FillOrder, OrderState.IsTerminal, FillSum;
    FillsAreRecorded(q, terms, fs);
    if fs != [] {
      FillOrderAdds(q, FillAll(q, NewOrder(terms), fs[..|fs| - 1]), fs[|fs| - 1]);
    }
  }
}
