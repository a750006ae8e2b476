/** Quotes and fills of the paper simulator, and the venue profiles that only add warnings. */
module PaperMarket {
  import opened Prelude
  import opened FixedDecimal
  import opened Timestamp
  import opened Records
  import Digits
  import Sha256

  // ----- providers.rs -----

  datatype Quote = Quote(bid: Decimal, ask: Decimal) {
    /** What a side trades at: purchases at the ask, sales at the bid. */
    ghost function Side(side: Side): Decimal {
      match side
      case Buy | BuyToCover => ask
      case Sell | SellShort => bid
    }
  }

  function AroundMid(mid: Decimal, halfSpread: Decimal): Quote {
    Quote(UnwrapOr(mid.CheckedSub(halfSpread), mid), UnwrapOr(mid.CheckedAdd(halfSpread), mid))
  }

  datatype FillOutcome = FilledAt(price: Decimal) | StaysOpen

  /** The UTF-8 bytes of one Unicode scalar value. */
  function Utf8Char(c: int): Bytes
    requires 0 <= c < 0x11_0000
  {
    if c < 0x80 then [c]
    else if c < 0x800 then [0xC0 + c / 0x40, 0x80 + c % 0x40]
    else if c < 0x1_0000 then [0xE0 + c / 0x1000, 0x80 + c / 0x40 % 0x40, 0x80 + c % 0x40]
    else [0xF0 + c / 0x4_0000, 0x80 + c / 0x1000 % 0x40, 0x80 + c / 0x40 % 0x40, 0x80 + c % 0x40]
  }

  function Utf8(s: string): Bytes {
    if s == [] then [] else Utf8Char(s[0] as int) + Utf8(s[1..])
  }

  function SyntheticCents(id: string): (c: nat)
    ensures 5_000 <= c < 25_000
  {
    5_000 + Sha256.Unsigned(Sha256.Digest(Utf8(id))[..4]) % 20_000
  }

  /** A number of cents as whole units, a dot and two decimals. */
  function CentsText(cents: nat): Bytes {
    Digits.Print(cents / 100) + [Digits.DOT] + Digits.ZeroPadded(cents % 100, 2)
  }

  /** The default mid price of an instrument, derived from the hash of its id. */
  function SyntheticMid(id: string): Decimal {
    match Parse(CentsText(SyntheticCents(id)))
    case Ok(d) => d
    case Err(_) => Decimal(100 * SCALE)
  }

  /** The simulator's state: pinned mid prices and the half spread. */
  datatype Quotes = Quotes(pinned: map<string, Decimal>, halfSpread: Decimal) {
    function Mid(id: string): Decimal {
      if id in pinned then pinned[id] else SyntheticMid(id)
    }

    function QuoteFor(id: string): Quote { AroundMid(Mid(id), halfSpread) }

    function SimulateFill(terms: OrderTerms): FillOutcome {
      var quote := QuoteFor(terms.instrument.id);
      match terms.orderType
      case Market | MarketOnClose =>
        FilledAt(if terms.side.IsBuySide() then quote.ask else quote.bid)
      case Limit | LimitOnClose =>
        if terms.limitPrice.None? then StaysOpen
        else if terms.side.IsBuySide() then
          if terms.limitPrice.value.raw >= quote.ask.raw then FilledAt(quote.ask) else StaysOpen
        else if terms.limitPrice.value.raw <= quote.bid.raw then FilledAt(quote.bid)
        else StaysOpen
      case _ => StaysOpen
    }
  }

  class PaperSimulator {
    var pinned: map<string, Decimal>
    const halfSpread: Decimal

    /** The half spread is 0.005. */
    constructor ()
      ensures State() == Quotes(map[], Decimal(500_000))
    {
      pinned := map[];
      halfSpread := Decimal(500_000);
    }

    function State(): Quotes
      reads this
    {
      Quotes(pinned, halfSpread)
    }

    method SetQuote(id: string, mid: Decimal)
      modifies this
      ensures State() == old(State()).(pinned := old(pinned)[id := mid])
      ensures State().Mid(id) == mid
      ensures forall other :: other != id ==> State().Mid(other) == old(State()).Mid(other)
    {
      pinned := pinned[id := mid];
    }
  }

  /** The text of a synthetic price is always read back, as that many cents. */
  lemma SyntheticMidIsCents(id: string)
    ensures SyntheticMid(id) == Decimal(SyntheticCents(id) * 1_000_000)
    ensures 50 * SCALE <= SyntheticMid(id).raw < 250 * SCALE
  {
    CentsAreRead(SyntheticCents(id));
  }

  /** The mid price where none is pinned: the first four bytes of the digest of the id in UTF-8, read
      as a big-endian number and reduced to the range. */
  lemma SyntheticMidExact(q: Quotes, id: string)
    requires id !in q.pinned
    ensures var d := Sha256.Digest(Utf8(id));
            q.Mid(id).raw ==
              (5_000 + FourBytes(d[0], d[1], d[2], d[3]) % 20_000) * (SCALE / 100)
  {
    hide Sha256.Digest, Utf8;
    SyntheticMidIsCents(id);
    FourBytesDenote(Sha256.Digest(Utf8(id)));
  }

  /** A big-endian number of four bytes. */
  function FourBytes(a: int, b: int, c: int, d: int): int { 0x100_0000 * a + 0x1_0000 * b + 0x100 * c + d }

  lemma FourBytesDenote(d: Bytes)
    requires |d| >= 4
    ensures Sha256.Unsigned(d[..4]) == FourBytes(d[0], d[1], d[2], d[3])
  {
    assert d[..4][..3] == d[..3] && d[..3][..2] == d[..2] && d[..2][..1] == d[..1] && d[..1][..0] == [];
    assert Sha256.Unsigned(d[..1]) == FourBytes(0, 0, 0, d[0]);
    assert Sha256.Unsigned(d[..2]) == FourBytes(0, 0, d[0], d[1]);
    assert Sha256.Unsigned(d[..3]) == FourBytes(0, d[0], d[1], d[2]);
  }

  /** The six bits of a byte that continues a UTF-8 sequence. */
  predicate Continues(b: byte, bits: int) { b as int == 0x80 + bits && 0 <= bits < 0x40 }

  /** Each character has the shortest of the four forms of section 3 of RFC 3629, and the bits of
      its bytes are the character's number. */
  lemma Utf8CharExact(c: int) returns (b0: int, b1: int, b2: int, b3: int)
    requires 0 <= c < 0x11_0000
    ensures var u := Utf8Char(c);
            if c < 0x80 then |u| == 1 && u[0] as int == c
            else if c < 0x800 then
              |u| == 2 && u[0] as int == 0xC0 + b0 && Continues(u[1], b1)
              && 0 <= b0 < 0x20 && c == 0x40 * b0 + b1
            else if c < 0x1_0000 then
              |u| == 3 && u[0] as int == 0xE0 + b0 && Continues(u[1], b1) && Continues(u[2], b2)
              && 0 <= b0 < 0x10 && c == 0x1000 * b0 + 0x40 * b1 + b2
            else
              |u| == 4 && u[0] as int == 0xF0 + b0 && Continues(u[1], b1) && Continues(u[2], b2)
              && Continues(u[3], b3) && 0 <= b0 < 8 && c == 0x4_0000 * b0 + 0x1000 * b1 + 0x40 * b2 + b3
  {
    b0, b1, b2, b3 := c, 0, 0, 0;
    if c < 0x80 {
    } else if c < 0x800 {
      b0, b1 := c / 0x40, c % 0x40;
    } else if c < 0x1_0000 {
      b0, b1, b2 := c / 0x1000, c / 0x40 % 0x40, c % 0x40;
      SixBits(c);
    } else {
      b0, b1, b2, b3 := c / 0x4_0000, c / 0x1000 % 0x40, c / 0x40 % 0x40, c % 0x40;
      SixBits(c);
    }
  }

  lemma SixBits(c: int)
    requires c >= 0
    ensures c == 0x40 * (c / 0x40) + c % 0x40
    ensures c / 0x40 == 0x40 * (c / 0x1000) + c / 0x40 % 0x40
    ensures c / 0x1000 == 0x40 * (c / 0x4_0000) + c / 0x1000 % 0x40
  {
    assert c / 0x1000 == c / 0x40 / 0x40;
    assert c / 0x4_0000 == c / 0x1000 / 0x40;
  }

  /** A text is encoded character by character, in order. */
  lemma {:induction false} Utf8Concat(s: string, t: string)
    ensures Utf8(s + t) == Utf8(s) + Utf8(t)
    ensures |s| == 1 ==> Utf8(s) == Utf8Char(s[0] as int)
  {
    if s == [] {
      assert s + t == t;
    } else {
      assert (s + t)[1..] == s[1..] + t;
      Utf8Concat(s[1..], t);
    }
  }

  function CentsNumeral(cents: nat): Numeral {
    Numeral(false, Digits.Print(cents / 100), Some(Digits.ZeroPadded(cents % 100, 2)))
  }

  lemma CentsAreRead(cents: nat)
    requires cents < 25_000
    ensures Parse(CentsText(cents)) == Result.Ok(Decimal(cents * 1_000_000))
  {
    var n := CentsNumeral(cents);
    CentsSpelled(cents);
    CentsMagnitude(cents);
    FixedDecimal.ParseOfText(n);
  }

  lemma CentsSpelled(cents: nat)
    ensures CentsNumeral(cents).WellFormed() && CentsNumeral(cents).Text() == CentsText(cents)
  {
    Digits.ValueOfPrint(cents / 100);
    LeadingZeroMeansZero(Digits.Print(cents / 100));
  }

  lemma CentsMagnitude(cents: nat)
    ensures |CentsNumeral(cents).FractionDigits()| == 2
    ensures CentsNumeral(cents).Magnitude() == cents * 1_000_000
  {
    hide Digits.Print, Digits.Value, Digits.Padded, Digits.Pow10;
    Digits.ValueOfPrint(cents / 100);
    TwoDigitFraction(cents % 100);
    assert cents / 100 * SCALE + cents % 100 * 1_000_000 == cents * 1_000_000;
  }

  lemma TwoDigitFraction(f: nat)
    requires f < 100
    ensures |Digits.ZeroPadded(f, 2)| == 2
    ensures Digits.Value(Digits.ZeroPadded(f, 2)) == f && Digits.Pow10(6) == 1_000_000
  {
    Digits.Pow10Values();
    Digits.ZeroPaddedIsPadded(f, 2);
    Digits.ValueOfPadded(f, 2);
  }

  /** Bid and ask lie half a spread below and above the mid price, or on it where that overflows. */
  lemma QuoteStraddlesMid(q: Quotes, id: string)
    ensures var mid, half, quote := q.Mid(id).raw, q.halfSpread.raw, q.QuoteFor(id);
            && quote.bid.raw == (if I128_MIN <= mid - half <= I128_MAX then mid - half else mid)
            && quote.ask.raw == (if I128_MIN <= mid + half <= I128_MAX then mid + half else mid)
  {
    hide Quotes.Mid;
  }

  /** The mid price of `id` covers the half spread. */
  predicate SaneAt(q: Quotes, id: string) { 0 <= q.halfSpread.raw <= q.Mid(id).raw }

  /** Then its quote is neither negative nor crossed. */
  lemma SaneQuote(q: Quotes, id: string)
    requires SaneAt(q, id)
    ensures 0 <= q.QuoteFor(id).bid.raw <= q.QuoteFor(id).ask.raw
  {
  }

  /** The default simulator is sane wherever the pinned prices are at least its half spread. */
  lemma DefaultIsSane(q: Quotes, id: string)
    requires q.halfSpread == Decimal(500_000)
    ensures SaneAt(q, id) <==> (id in q.pinned ==> q.pinned[id].raw >= 500_000)
  {
    SyntheticMidIsCents(id);
  }

  /** A fill is at the quote's own side, never worse than a limit order's limit; market orders
      always fill, limit orders exactly when marketable, and no other type ever does. */
  lemma FillIsFair(q: Quotes, terms: OrderTerms)
    ensures var quote, f := q.QuoteFor(terms.instrument.id), q.SimulateFill(terms);
            f.FilledAt? ==> f.price == quote.Side(terms.side)
    ensures q.SimulateFill(terms).FilledAt? <==> IsMarketType(terms.orderType) || Marketable(q, terms)
  {
    hide Quotes.QuoteFor;
  }

  predicate IsMarketType(t: OrderType) { t.Market? || t.MarketOnClose? }

  predicate IsLimitType(t: OrderType) { t.Limit? || t.LimitOnClose? }

  /** A limit order whose limit the current quote meets. */
  predicate Marketable(q: Quotes, terms: OrderTerms) {
    var quote := q.QuoteFor(terms.instrument.id);
    IsLimitType(terms.orderType) && terms.limitPrice.Some?
    && match terms.side
       case Buy | BuyToCover => quote.ask.raw <= terms.limitPrice.value.raw
       case Sell | SellShort => terms.limitPrice.value.raw <= quote.bid.raw
  }

  // ----- jurisdiction_venue.rs -----

  datatype VenueProfile = VenueProfile(
    venueMic: string, effectiveFrom: UtcTimestamp, effectiveTo: Option<UtcTimestamp>)
  {
    predicate IsEffectiveAt(now: UtcTimestamp) {
      if effectiveFrom.SaturatingDiffSeconds(now) > 0 then false
      else match effectiveTo
        case Some(end) => now.SaturatingDiffSeconds(end) <= 0
        case None => true
    }

    /** What an instrument of this venue is warned of while the profile is registered. */
    function WarningAt(now: UtcTimestamp): Option<Warning> {
      if IsEffectiveAt(now) then None else Some(VenueNotEffective(venueMic))
    }
  }

  type Venues = map<string, VenueProfile>

  class VenueRegistry {
    var profiles: Venues

    constructor ()
      ensures profiles == map[]
    {
      profiles := map[];
    }

    method Register(profile: VenueProfile)
      modifies this
      ensures profiles == old(profiles)[profile.venueMic := profile]
      ensures forall instrument: Instrument, now ::
                CheckVenueProfile(instrument, profiles, now) ==
                  if instrument.venueMic == Some(profile.venueMic) then profile.WarningAt(now)
                  else CheckVenueProfile(instrument, old(profiles), now)
    {
      profiles := profiles[profile.venueMic := profile];
    }
  }

  function CheckVenueProfile(instrument: Instrument, venues: Venues, now: UtcTimestamp): Option<Warning> {
    match instrument.venueMic
    case None => None
    case Some(mic) =>
      if mic in venues then
        if venues[mic].IsEffectiveAt(now) then None else Some(VenueNotEffective(mic))
      else Some(VenueNotConfigured(mic))
  }

  /** Whatever profiles were registered, the last one of an instrument's venue decides its warning:
      none from the profile's first whole second to its last, a lapsed or not yet effective profile
      otherwise, and an unconfigured venue if there never was one. */
  lemma {:induction false} LastProfileDecides(registered: seq<VenueProfile>, instrument: Instrument, now: UtcTimestamp)
    ensures CheckVenueProfile(instrument, Registered(registered), now) ==
      if instrument.venueMic.None? then None
      else
        var p := LastFor(registered, instrument.venueMic.value);
        if p.None? then Some(VenueNotConfigured(instrument.venueMic.value))
        else if p.value.effectiveFrom.secs <= now.secs
                && (p.value.effectiveTo.Some? ==> now.secs <= p.value.effectiveTo.value.secs) then None
        else Some(VenueNotEffective(instrument.venueMic.value))
  {
    if registered != [] {
      LastProfileDecides(registered[..|registered| - 1], instrument, now);
      EffectiveInterval(registered[|registered| - 1], now);
    }
  }

  /** The registry after registering profiles one after another. */
  function Registered(profiles: seq<VenueProfile>): Venues {
    if profiles == [] then map[]
    else
      var p := profiles[|profiles| - 1];
      Registered(profiles[..|profiles| - 1])[p.venueMic := p]
  }

  /** The last profile given for a venue. */
  function LastFor(profiles: seq<VenueProfile>, mic: string): Option<VenueProfile> {
    if profiles == [] then None
    else if profiles[|profiles| - 1].venueMic == mic then Some(profiles[|profiles| - 1])
    else LastFor(profiles[..|profiles| - 1], mic)
  }

  /** A venue check is silent exactly when the instrument names no venue, or one whose profile is
      registered and effective now. */
  lemma SilentVenue(instrument: Instrument, venues: Venues, now: UtcTimestamp)
    ensures CheckVenueProfile(instrument, venues, now).None? <==>
      instrument.venueMic.None?
      || (instrument.venueMic.value in venues
          && var p := venues[instrument.venueMic.value];
             p.effectiveFrom.secs <= now.secs && (p.effectiveTo.Some? ==> now.secs <= p.effectiveTo.value.secs))
  {
    if instrument.venueMic.Some? && instrument.venueMic.value in venues {
      EffectiveInterval(venues[instrument.venueMic.value], now);
    }
  }

  /** A profile is effective from its first to its last second, both included. */
  lemma EffectiveInterval(p: VenueProfile, now: UtcTimestamp)
    ensures p.IsEffectiveAt(now) <==>
              p.effectiveFrom.secs <= now.secs && (p.effectiveTo.Some? ==> now.secs <= p.effectiveTo.value.secs)
  {
  }
}
