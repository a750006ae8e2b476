/** UTC instants and their RFC 3339 text: the parser and the printer of utc_timestamp.rs. */
module Timestamp {
  import opened Prelude
  import opened Digits
  import opened Calendar

  const NANOS_PER_SECOND: int := 1_000_000_000
  const U32_LIMIT: int := 0x1_0000_0000

  type Nanos = n: int | 0 <= n < 1_000_000_000

  datatype UtcTimestamp = UtcTimestamp(secs: i64, nanos: Nanos) {
    /** `self - other` in whole seconds, clamped to i64. */
    function SaturatingDiffSeconds(other: UtcTimestamp): i64 {
      var d := secs - other.secs;
      if d < I64_MIN then I64_MIN else if d > I64_MAX then I64_MAX else d
    }
  }

  const UNIX_EPOCH := UtcTimestamp(0, 0)

  function WrapI64(x: int): i64 { (x + 0x8000_0000_0000_0000) % 0x1_0000_0000_0000_0000 - 0x8000_0000_0000_0000 }

  /** Normalises a u32 nanosecond count into seconds and a remainder. */
  function FromUnix(secs: i64, nanos: nat): UtcTimestamp
    requires nanos < U32_LIMIT
  {
    UtcTimestamp(WrapI64(secs + nanos / NANOS_PER_SECOND), nanos % NANOS_PER_SECOND)
  }

  /** The instant is kept exactly when the carried seconds do not pass the end of i64. */
  lemma FromUnixKeepsInstant(secs: i64, nanos: nat)
    requires nanos < U32_LIMIT
    ensures var t := FromUnix(secs, nanos);
            t.secs * NANOS_PER_SECOND + t.nanos == secs * NANOS_PER_SECOND + nanos
            <==> secs + nanos / NANOS_PER_SECOND <= I64_MAX
  {
    var x := secs + nanos / NANOS_PER_SECOND;
    assert 0 <= nanos / NANOS_PER_SECOND <= 4;
    if x <= I64_MAX {
      assert WrapI64(x) == x;
    } else {
      assert WrapI64(x) == x - 0x1_0000_0000_0000_0000;
    }
  }

  /** The carried seconds wrap around to i64, and the nanoseconds are what is left of a second. */
  lemma FromUnixExact(secs: i64, nanos: nat)
    requires nanos < U32_LIMIT
    ensures var t, x := FromUnix(secs, nanos), secs + nanos / NANOS_PER_SECOND;
            && t.secs == (if x <= I64_MAX then x else x - 0x1_0000_0000_0000_0000)
            && t.nanos == nanos % NANOS_PER_SECOND
  {
    assert 0 <= nanos / NANOS_PER_SECOND <= 4;
  }

  /** The difference of two instants in whole seconds, or the end of i64 it passes. */
  lemma DiffExact(a: UtcTimestamp, b: UtcTimestamp)
    ensures var d, r := a.secs - b.secs, a.SaturatingDiffSeconds(b);
            && (I64_MIN <= d <= I64_MAX ==> r == d)
            && (d < I64_MIN ==> r == I64_MIN) && (d > I64_MAX ==> r == I64_MAX)
  {
  }

  datatype TimestampParseError =
    | TooShort
    | InvalidDigit
    | InvalidDateSeparator
    | InvalidTimeSeparator
    | MonthOutOfRange
    | DayOutOfRange
    | HourOutOfRange
    | MinuteOutOfRange
    | SecondOutOfRange
    | FractionInvalid
    | MissingUtcDesignator
    | UnsupportedOffset
    | TrailingGarbage
    | Overflow

  type ParseResult = Result<UtcTimestamp, TimestampParseError>

  const UPPER_T: byte := 84
  const LOWER_T: byte := 116
  const UPPER_Z: byte := 90
  const LOWER_Z: byte := 122

  // ----- The grammar: RFC 3339 section 5.6, restricted to UTC -----

  datatype Designator = Zulu(lower: bool) | ZeroOffset(minus: bool) {
    function Text(): Bytes {
      match this
      case Zulu(lower) => [if lower then LOWER_Z else UPPER_Z]
      case ZeroOffset(minus) => [if minus then MINUS else PLUS, ZERO, ZERO, COLON, ZERO, ZERO]
    }
  }

  datatype Clock = Clock(hour: int, minute: int, second: int) {
    ghost predicate Valid() { 0 <= hour <= 23 && 0 <= minute <= 59 && 0 <= second <= 59 }

    function Seconds(): int { hour * 3600 + minute * 60 + second }
  }

  datatype DateTime = DateTime(
    date: Date, lowerT: bool, clock: Clock, fraction: Option<Bytes>, designator: Designator)
  {
    ghost predicate WellFormed() {
      && 0 <= date.year <= 9999 && ValidDate(date) && clock.Valid()
      && (fraction.Some? ==> AllDigits(fraction.value) && 1 <= |fraction.value| <= 9)
    }

    function Text(): Bytes
      requires WellFormed()
    {
      Stamp(date, lowerT, clock) + Tail()
    }

    function Tail(): Bytes {
      (if fraction.Some? then [DOT] + fraction.value else []) + designator.Text()
    }

    function Nanos(): Nanos
      requires WellFormed()
    {
      NanosOf(if fraction.Some? then fraction.value else [])
    }

    function Secs(): int
      requires WellFormed()
    {
      DaysFromCivil(date) * 86400 + clock.Seconds()
    }
  }

  /** A fraction of up to nine digits in nanoseconds. */
  function NanosOf(fraction: Bytes): Nanos
    requires AllDigits(fraction) && |fraction| <= 9
  {
    FractionBound(fraction);
    Value(fraction) * Pow10(9 - |fraction|)
  }

  lemma FractionBound(f: Bytes)
    requires AllDigits(f) && |f| <= 9
    ensures 0 <= Value(f) * Pow10(9 - |f|) < NANOS_PER_SECOND
  {
    ValueBound(f);
    PowAdd(|f|, 9 - |f|);
    Pow10Values();
    ProductBound(Value(f), Pow10(|f|), Pow10(9 - |f|));
  }

  lemma ProductBound(x: int, y: int, p: int)
    requires 0 <= x < y && p > 0
    ensures 0 <= x * p < y * p
  {
  }

  /** One ASCII digit of `n`. */
  function DigitByte(n: int): byte
    requires 0 <= n <= 9
  {
    48 + n
  }

  /** The nineteen bytes `YYYY-MM-DDThh:mm:ss`. */
  function Stamp(date: Date, lowerT: bool, clock: Clock): (s: Bytes)
    requires 0 <= date.year <= 9999 && 0 <= date.month <= 99 && 0 <= date.day <= 99
    requires 0 <= clock.hour <= 99 && 0 <= clock.minute <= 99 && 0 <= clock.second <= 99
    ensures |s| == 19
  {
    [ DigitByte(date.year / 1000), DigitByte(date.year / 100 % 10),
      DigitByte(date.year / 10 % 10), DigitByte(date.year % 10), MINUS,
      DigitByte(date.month / 10), DigitByte(date.month % 10), MINUS,
      DigitByte(date.day / 10), DigitByte(date.day % 10),
      if lowerT then LOWER_T else UPPER_T,
      DigitByte(clock.hour / 10), DigitByte(clock.hour % 10), COLON,
      DigitByte(clock.minute / 10), DigitByte(clock.minute % 10), COLON,
      DigitByte(clock.second / 10), DigitByte(clock.second % 10) ]
  }

  // ----- Reading -----

  predicate TwoDigits(b: Bytes, i: nat)
    requires i + 2 <= |b|
  {
    IsDigit(b[i]) && IsDigit(b[i + 1])
  }

  function Two(b: Bytes, i: nat): (n: int)
    requires i + 2 <= |b| && TwoDigits(b, i)
    ensures 0 <= n <= 99
  {
    Digit(b[i]) * 10 + Digit(b[i + 1])
  }

  function Year(b: Bytes): (n: int)
    requires |b| >= 4 && TwoDigits(b, 0) && TwoDigits(b, 2)
    ensures 0 <= n <= 9999
  {
    Digit(b[0]) * 1000 + Digit(b[1]) * 100 + Digit(b[2]) * 10 + Digit(b[3])
  }

  /** The first layout fault in bytes 0..19, if there is one. */
  function LayoutError(b: Bytes): Option<TimestampParseError>
    requires |b| >= 20
  {
    if !(TwoDigits(b, 0) && TwoDigits(b, 2)) then Some(InvalidDigit)
    else if b[4] != MINUS then Some(InvalidDateSeparator)
    else if !TwoDigits(b, 5) then Some(InvalidDigit)
    else if b[7] != MINUS then Some(InvalidDateSeparator)
    else if !TwoDigits(b, 8) then Some(InvalidDigit)
    else if b[10] != UPPER_T && b[10] != LOWER_T then Some(InvalidTimeSeparator)
    else if !TwoDigits(b, 11) then Some(InvalidDigit)
    else if b[13] != COLON then Some(InvalidTimeSeparator)
    else if !TwoDigits(b, 14) then Some(InvalidDigit)
    else if b[16] != COLON then Some(InvalidTimeSeparator)
    else if !TwoDigits(b, 17) then Some(InvalidDigit)
    else None
  }

  function DateAt(b: Bytes): Date
    requires |b| >= 20 && LayoutError(b).None?
  {
    Date(Year(b), Two(b, 5), Two(b, 8))
  }

  function ClockAt(b: Bytes): Clock
    requires |b| >= 20 && LayoutError(b).None?
  {
    Clock(Two(b, 11), Two(b, 14), Two(b, 17))
  }

  function RangeError(date: Date, clock: Clock): Option<TimestampParseError> {
    if !(1 <= date.month <= 12) then Some(MonthOutOfRange)
    else if date.day < 1 || date.day > LastDayOfMonth(date.year, date.month) then Some(DayOutOfRange)
    else if clock.hour > 23 then Some(HourOutOfRange)
    else if clock.minute > 59 then Some(MinuteOutOfRange)
    else if clock.second > 59 then Some(SecondOutOfRange)
    else None
  }

  function ParseRfc3339(b: Bytes): ParseResult {
    if |b| < 20 then Err(TooShort)
    else if LayoutError(b).Some? then Err(LayoutError(b).value)
    else
      var date, clock := DateAt(b), ClockAt(b);
      if RangeError(date, clock).Some? then Err(RangeError(date, clock).value)
      else ParseTail(b, date, clock)
  }

  /** The optional fraction, from byte 19. */
  function ParseTail(b: Bytes, date: Date, clock: Clock): ParseResult
    requires |b| >= 20 && ValidDate(date)
  {
    if b[19] == DOT then
      var end := RunEnd(b, 20);
      if end == 20 || end > 29 then Err(FractionInvalid)
      else ParseDesignator(b, end, date, clock, NanosOf(b[20..end]))
    else ParseDesignator(b, 19, date, clock, 0)
  }

  /** The UTC designator at `idx`, which must end the text. */
  function ParseDesignator(b: Bytes, idx: nat, date: Date, clock: Clock, nanos: Nanos): ParseResult
    requires ValidDate(date)
  {
    if idx >= |b| then Err(MissingUtcDesignator)
    else if b[idx] == UPPER_Z || b[idx] == LOWER_Z then
      if idx + 1 != |b| then Err(TrailingGarbage) else Instant(date, clock, nanos)
    else if b[idx] == PLUS || b[idx] == MINUS then
      if |b| < idx + 6 then Err(UnsupportedOffset)
      else if !TwoDigits(b, idx + 1) then Err(InvalidDigit)
      else if b[idx + 3] != COLON then Err(UnsupportedOffset)
      else if !TwoDigits(b, idx + 4) then Err(InvalidDigit)
      else if Two(b, idx + 1) != 0 || Two(b, idx + 4) != 0 then Err(UnsupportedOffset)
      else if idx + 6 != |b| then Err(TrailingGarbage)
      else Instant(date, clock, nanos)
    else Err(MissingUtcDesignator)
  }

  /** Days and seconds combined with checked i64 arithmetic. */
  function Instant(date: Date, clock: Clock, nanos: Nanos): ParseResult
    requires ValidDate(date)
  {
    var daySecs := DaysFromCivil(date) * 86400;
    var secs := daySecs + clock.Seconds();
    if !(I64_MIN <= daySecs <= I64_MAX) || !(I64_MIN <= secs <= I64_MAX) then Err(Overflow)
    else Ok(UtcTimestamp(secs, nanos))
  }

  /** The parser of utc_timestamp.rs, byte by byte with its own index and accumulators. */
  method ParseByScanning(b: Bytes) returns (r: ParseResult)
    ensures r == ParseRfc3339(b)
  {
    if |b| < 20 {
      return Err(TooShort);
    }
    if !(IsDigit(b[0]) && IsDigit(b[1]) && IsDigit(b[2]) && IsDigit(b[3])) {
      return Err(InvalidDigit);
    }
    var year := Digit(b[0]) * 1000 + Digit(b[1]) * 100 + Digit(b[2]) * 10 + Digit(b[3]);
    if b[4] != MINUS {
      return Err(InvalidDateSeparator);
    }
    if !TwoDigits(b, 5) {
      return Err(InvalidDigit);
    }
    var month := Two(b, 5);
    if b[7] != MINUS {
      return Err(InvalidDateSeparator);
    }
    if !TwoDigits(b, 8) {
      return Err(InvalidDigit);
    }
    var day := Two(b, 8);
    if b[10] != UPPER_T && b[10] != LOWER_T {
      return Err(InvalidTimeSeparator);
    }
    if !TwoDigits(b, 11) {
      return Err(InvalidDigit);
    }
    var hour := Two(b, 11);
    if b[13] != COLON {
      return Err(InvalidTimeSeparator);
    }
    if !TwoDigits(b, 14) {
      return Err(InvalidDigit);
    }
    var minute := Two(b, 14);
    if b[16] != COLON {
      return Err(InvalidTimeSeparator);
    }
    if !TwoDigits(b, 17) {
      return Err(InvalidDigit);
    }
    var second := Two(b, 17);
    if !(1 <= month <= 12) {
      return Err(MonthOutOfRange);
    }
    if day < 1 || day > LastDayOfMonth(year, month) {
      return Err(DayOutOfRange);
    }
    if hour > 23 {
      return Err(HourOutOfRange);
    }
    if minute > 59 {
      return Err(MinuteOutOfRange);
    }
    if second > 59 {
      return Err(SecondOutOfRange);
    }
    r := ScanTail(b, Date(year, month, day), Clock(hour, minute, second));
  }

  method ScanTail(b: Bytes, date: Date, clock: Clock) returns (r: ParseResult)
    requires |b| >= 20 && ValidDate(date)
    ensures r == ParseTail(b, date, clock)
  {
    var idx := 19;
    var nanos: Nanos := 0;
    if idx < |b| && b[idx] == DOT {
      idx := idx + 1;
      var fracStart := idx;
      while idx < |b| && IsDigit(b[idx])
        invariant fracStart <= idx <= |b| && AllDigits(b[fracStart..idx])
      {
        assert b[fracStart..idx + 1] == b[fracStart..idx] + [b[idx]];
        idx := idx + 1;
      }
      RunEndIs(b, fracStart, idx);
      var fracLen := idx - fracStart;
      if fracLen == 0 || fracLen > 9 {
        return Err(FractionInvalid);
      }
      nanos := ScaleFraction(b[fracStart..idx]);
    }
    r := ParseDesignator(b, idx, date, clock, nanos);
  }

  /** Accumulates the digits, then scales to nine places; u32 never overflows on the way. */
  method ScaleFraction(f: Bytes) returns (value: nat)
    requires AllDigits(f) && 1 <= |f| <= 9
    ensures value == NanosOf(f)
  {
    value := 0;
    assert f[..0] == [];
    for k := 0 to |f|
      invariant value == Value(f[..k]) && value < Pow10(k)
    {
      ValuePush(f[..k], f[k]);
      assert f[..k] + [f[k]] == f[..k + 1];
      FitsU32(k + 1);
      assert value * 10 + Digit(f[k]) < U32_LIMIT;
      value := value * 10 + Digit(f[k]);
    }
    assert f[..|f|] == f;
    for k := 0 to 9 - |f|
      invariant value == Value(f) * Pow10(k) && value < Pow10(|f| + k)
    {
      FitsU32(|f| + k + 1);
      MulPow(Value(f), k);
      assert value * 10 < U32_LIMIT;
      value := value * 10;
    }
  }

  lemma FitsU32(k: nat)
    requires k <= 9
    ensures Pow10(k) < U32_LIMIT
  {
    PowAdd(k, 9 - k);
    Pow10Values();
    ProductAtLeast(Pow10(k), Pow10(9 - k));
  }

  lemma ProductAtLeast(x: int, y: int)
    requires x > 0 && y >= 1
    ensures x <= x * y
  {
  }

  // ----- Printing -----

  /** `{y:04}`: a sign counts toward the width. */
  function YearText(y: int): Bytes {
    if y < 0 then [MINUS] + ZeroPadded(-y, 3) else ZeroPadded(y, 4)
  }

  function ClockOf(daySecs: int): Clock {
    Clock(daySecs / 3600, daySecs % 3600 / 60, daySecs % 60)
  }

  function TimeText(clock: Clock): Bytes
    requires clock.hour >= 0 && clock.minute >= 0 && clock.second >= 0
  {
    ZeroPadded(clock.hour, 2) + [COLON] + ZeroPadded(clock.minute, 2) + [COLON] + ZeroPadded(clock.second, 2)
  }

  function DateText(d: Date): Bytes
    requires ValidDate(d)
  {
    YearText(d.year) + [MINUS] + ZeroPadded(d.month, 2) + [MINUS] + ZeroPadded(d.day, 2)
  }

  function DateOf(t: UtcTimestamp): (d: Date)
    ensures ValidDate(d)
  {
    CivilFromDaysIsRightInverse(t.secs / 86400);
    CivilFromDays(t.secs / 86400)
  }

  /** The text of an instant; `/` and `%` are Euclidean here as they are in the source. */
  function Render(t: UtcTimestamp): Bytes {
    DateText(DateOf(t)) + [UPPER_T] + TimeText(ClockOf(t.secs % 86400))
    + (if t.nanos == 0 then [] else [DOT] + TrimZeros(Padded(t.nanos, 9))) + [UPPER_Z]
  }

  method ToRfc3339(t: UtcTimestamp) returns (s: Bytes)
    ensures s == Render(t)
  {
    var days, daySecs := t.secs / 86400, t.secs % 86400;
    var date := DateOf(t);
    var hour, minute, second := daySecs / 3600, daySecs % 3600 / 60, daySecs % 60;
    var stamp := DateText(date) + [UPPER_T] + TimeText(Clock(hour, minute, second));
    if t.nanos == 0 {
      s := stamp + [UPPER_Z];
      assert stamp + [] == stamp;
    } else {
      Pow10Values();
      ZeroPaddedIsPadded(t.nanos, 9);
      var frac := ZeroPadded(t.nanos, 9);
      while |frac| > 0 && frac[|frac| - 1] == ZERO
        invariant TrimZeros(frac) == TrimZeros(Padded(t.nanos, 9))
      {
        frac := frac[..|frac| - 1];
      }
      s := stamp + ([DOT] + frac) + [UPPER_Z];
    }
  }

  // ----- The exact language -----

  const FIRST_SECOND: int := -62_167_219_200
  const SECONDS_END: int := 253_402_300_800

  /** The instants of the years 0000 to 9999. */
  predicate FourDigitYear(t: UtcTimestamp) { FIRST_SECOND <= t.secs < SECONDS_END }

  /** The first and the last day of the four-digit years. */
  const FIRST_DAY := Date(0, 1, 1)
  const LAST_DAY := Date(9999, 12, 31)

  lemma BoundaryDays()
    ensures DaysFromCivil(FIRST_DAY) == -719528 && DaysFromCivil(LAST_DAY) == 2932896
  {
    hide DaysFromCivil;
    DaysOfDate(FIRST_DAY);
    assert MarchYear(FIRST_DAY) == -1 && DayOfMarchYear(FIRST_DAY) == 306;
    DaysOfDate(LAST_DAY);
    assert MarchYear(LAST_DAY) == 9999 && DayOfMarchYear(LAST_DAY) == 305;
  }

  lemma YearBounds(d: Date)
    requires ValidDate(d)
    ensures DaysFromCivil(FIRST_DAY) == -719528 && DaysFromCivil(LAST_DAY) == 2932896
    ensures d.year < 0 <==> DaysFromCivil(d) < -719528
    ensures d.year > 9999 <==> DaysFromCivil(d) > 2932896
  {
    hide DaysFromCivil;
    BoundaryDays();
    DayNumbersOrderDates(d, FIRST_DAY);
    DayNumbersOrderDates(LAST_DAY, d);
  }

  lemma FourDigitYears(d: Date)
    requires ValidDate(d)
    ensures 0 <= d.year <= 9999 <==> FIRST_SECOND <= DaysFromCivil(d) * 86400 < SECONDS_END
  {
    hide DaysFromCivil;
    YearBounds(d);
  }

  lemma SecsInRange(g: DateTime)
    requires g.WellFormed()
    ensures FIRST_SECOND <= g.Secs() < SECONDS_END
  {
    hide FourDigitYear, DaysFromCivil;
    FourDigitYears(g.date);
  }

  /** What a well-formed text denotes. */
  function Denotes(g: DateTime): UtcTimestamp
    requires g.WellFormed()
  {
    SecsInRange(g);
    UtcTimestamp(g.Secs(), g.Nanos())
  }

  lemma TwoPlacesRead(n: int)
    requires 0 <= n <= 99
    ensures Digit(DigitByte(n / 10)) * 10 + Digit(DigitByte(n % 10)) == n
  {
  }

  lemma FourPlacesRead(n: int)
    requires 0 <= n <= 9999
    ensures Digit(DigitByte(n / 1000)) * 1000 + Digit(DigitByte(n / 100 % 10)) * 100
            + Digit(DigitByte(n / 10 % 10)) * 10 + Digit(DigitByte(n % 10)) == n
  {
    assert n / 1000 * 10 + n / 100 % 10 == n / 100;
    assert n / 100 * 10 + n / 10 % 10 == n / 10;
  }

  lemma StampReads(b: Bytes, g: DateTime)
    requires g.WellFormed() && |b| >= 20
    requires b[..19] == Stamp(g.date, g.lowerT, g.clock)
    ensures LayoutError(b).None? && DateAt(b) == g.date && ClockAt(b) == g.clock
  {
    var s := Stamp(g.date, g.lowerT, g.clock);
    assert forall i :: 0 <= i < 19 ==> b[i] == s[i];
    FourPlacesRead(g.date.year);
    TwoPlacesRead(g.date.month);
    TwoPlacesRead(g.date.day);
    TwoPlacesRead(g.clock.hour);
    TwoPlacesRead(g.clock.minute);
    TwoPlacesRead(g.clock.second);
    StampLayout(b, s, g);
  }

  lemma StampLayout(b: Bytes, s: Bytes, g: DateTime)
    requires g.WellFormed() && |b| >= 20 && s == Stamp(g.date, g.lowerT, g.clock)
    requires forall i :: 0 <= i < 19 ==> b[i] == s[i]
    ensures LayoutError(b).None?
    ensures b[0] == DigitByte(g.date.year / 1000) && b[1] == DigitByte(g.date.year / 100 % 10)
    ensures b[2] == DigitByte(g.date.year / 10 % 10) && b[3] == DigitByte(g.date.year % 10)
    ensures b[5] == DigitByte(g.date.month / 10) && b[6] == DigitByte(g.date.month % 10)
    ensures b[8] == DigitByte(g.date.day / 10) && b[9] == DigitByte(g.date.day % 10)
    ensures b[11] == DigitByte(g.clock.hour / 10) && b[12] == DigitByte(g.clock.hour % 10)
    ensures b[14] == DigitByte(g.clock.minute / 10) && b[15] == DigitByte(g.clock.minute % 10)
    ensures b[17] == DigitByte(g.clock.second / 10) && b[18] == DigitByte(g.clock.second % 10)
  {
    assert b[0] == s[0] && b[1] == s[1] && b[2] == s[2] && b[3] == s[3] && b[4] == s[4];
    assert b[5] == s[5] && b[6] == s[6] && b[7] == s[7] && b[8] == s[8] && b[9] == s[9];
    assert b[10] == s[10] && b[11] == s[11] && b[12] == s[12] && b[13] == s[13];
    assert b[14] == s[14] && b[15] == s[15] && b[16] == s[16] && b[17] == s[17] && b[18] == s[18];
  }

  /** A well-formed text is accepted and read as the instant it denotes. */
  lemma ParseOfText(g: DateTime)
    requires g.WellFormed()
    ensures ParseRfc3339(g.Text()) == Ok(Denotes(g))
  {
    var b := g.Text();
    assert |g.designator.Text()| >= 1;
    assert b[..19] == Stamp(g.date, g.lowerT, g.clock);
    assert b[19..] == g.Tail();
    StampReads(b, g);
    TailReads(b, g);
  }

  lemma TailReads(b: Bytes, g: DateTime)
    requires g.WellFormed() && |b| >= 20 && b[19..] == g.Tail()
    ensures ParseTail(b, g.date, g.clock) == Ok(Denotes(g))
  {
    hide RunEnd, FourDigitYear, ParseDesignator, DaysFromCivil;
    SecsInRange(g);
    var t := g.Tail();
    assert b[19] == t[0];
    if g.fraction.Some? {
      var f := g.fraction.value;
      var end := 20 + |f|;
      assert t[1..1 + |f|] == f;
      assert b[19..][1..1 + |f|] == b[20..end];
      assert b[19..][1 + |f|..] == b[end..];
      assert t[1 + |f|..] == g.designator.Text();
      assert b[end] == g.designator.Text()[0];
      RunEndIs(b, 20, end);
      DesignatorReads(b, end, g.date, g.clock, NanosOf(f), g.designator);
    } else {
      assert g.Nanos() == 0 by { assert Value([]) == 0; }
      assert t == g.designator.Text();
      DesignatorReads(b, 19, g.date, g.clock, 0, g.designator);
    }
  }

  lemma DesignatorReads(b: Bytes, idx: nat, date: Date, clock: Clock, nanos: Nanos, z: Designator)
    requires ValidDate(date) && idx <= |b| && b[idx..] == z.Text()
    ensures ParseDesignator(b, idx, date, clock, nanos) == Instant(date, clock, nanos)
  {
    var t := z.Text();
    assert |b| == idx + |t|;
    assert forall k :: 0 <= k < |t| ==> b[idx + k] == t[k];
    if z.ZeroOffset? {
      assert b[idx] == t[0] && b[idx + 1] == t[1] && b[idx + 2] == t[2];
      assert b[idx + 3] == t[3] && b[idx + 4] == t[4] && b[idx + 5] == t[5];
    } else {
      assert b[idx] == t[0];
    }
  }

  /** The well-formed text that an accepted text is. */
  lemma DateTimeOf(b: Bytes) returns (g: DateTime)
    requires ParseRfc3339(b).Ok? || ParseRfc3339(b) == Err(Overflow)
    ensures g.WellFormed() && g.Text() == b
  {
    var date, clock := DateAt(b), ClockAt(b);
    var fraction, z := TailOf(b, date, clock);
    g := DateTime(date, b[10] == LOWER_T, clock, fraction, z);
    StampOf(b);
    assert b == b[..19] + b[19..];
  }

  lemma TailOf(b: Bytes, date: Date, clock: Clock) returns (f: Option<Bytes>, z: Designator)
    requires |b| >= 20 && ValidDate(date)
    requires var r := ParseTail(b, date, clock); r.Ok? || r == Err(Overflow)
    ensures f.Some? ==> AllDigits(f.value) && 1 <= |f.value| <= 9
    ensures b[19..] == (if f.Some? then [DOT] + f.value else []) + z.Text()
  {
    if b[19] == DOT {
      var end := RunEnd(b, 20);
      z := DesignatorOf(b, end, date, clock, NanosOf(b[20..end]));
      f := Some(b[20..end]);
      assert b[19..] == [DOT] + b[20..end] + b[end..];
    } else {
      z := DesignatorOf(b, 19, date, clock, 0);
      f := None;
    }
  }

  lemma TwoPlacesWrite(c: byte, d: byte)
    requires IsDigit(c) && IsDigit(d)
    ensures var n := Digit(c) * 10 + Digit(d); c == DigitByte(n / 10) && d == DigitByte(n % 10)
  {
  }

  lemma FourPlacesWrite(b: Bytes)
    requires |b| >= 4 && TwoDigits(b, 0) && TwoDigits(b, 2)
    ensures var y := Year(b);
            && b[0] == DigitByte(y / 1000) && b[1] == DigitByte(y / 100 % 10)
            && b[2] == DigitByte(y / 10 % 10) && b[3] == DigitByte(y % 10)
  {
    hide DigitByte;
    var hi, lo := Two(b, 0), Two(b, 2);
    assert Year(b) == 100 * hi + lo;
    TwoPairs(hi, lo);
    TwoPlacesWrite(b[0], b[1]);
    TwoPlacesWrite(b[2], b[3]);
  }

  lemma TwoPairs(hi: int, lo: int)
    requires 0 <= hi <= 99 && 0 <= lo <= 99
    ensures var y := 100 * hi + lo;
            y / 1000 == hi / 10 && y / 100 % 10 == hi % 10 && y / 10 % 10 == lo / 10 && y % 10 == lo % 10
  {
    FourPlacesOf(hi / 10, hi % 10, lo / 10, lo % 10);
  }

  lemma FourPlacesOf(p: int, q: int, r: int, s: int)
    requires 0 <= p <= 9 && 0 <= q <= 9 && 0 <= r <= 9 && 0 <= s <= 9
    ensures var y := 100 * (10 * p + q) + (10 * r + s);
            y / 1000 == p && y / 100 % 10 == q && y / 10 % 10 == r && y % 10 == s
  {
    var y := 100 * (10 * p + q) + (10 * r + s);
    assert y / 100 == 10 * p + q;
    assert y / 10 == 100 * p + 10 * q + r;
  }

  lemma StampOf(b: Bytes)
    requires |b| >= 20 && LayoutError(b).None?
    ensures b[..19] == Stamp(DateAt(b), b[10] == LOWER_T, ClockAt(b))
  {
    hide Stamp, Year, RangeError, DigitByte;
    FourPlacesWrite(b);
    TwoPlacesWrite(b[5], b[6]);
    TwoPlacesWrite(b[8], b[9]);
    TwoPlacesWrite(b[11], b[12]);
    TwoPlacesWrite(b[14], b[15]);
    TwoPlacesWrite(b[17], b[18]);
    StampSpelled(b, DateAt(b), b[10] == LOWER_T, ClockAt(b));
  }

  lemma StampSpelled(b: Bytes, date: Date, lowerT: bool, clock: Clock)
    requires |b| >= 20
    requires 0 <= date.year <= 9999 && 0 <= date.month <= 99 && 0 <= date.day <= 99
    requires 0 <= clock.hour <= 99 && 0 <= clock.minute <= 99 && 0 <= clock.second <= 99
    requires b[0] == DigitByte(date.year / 1000) && b[1] == DigitByte(date.year / 100 % 10)
    requires b[2] == DigitByte(date.year / 10 % 10) && b[3] == DigitByte(date.year % 10) && b[4] == MINUS
    requires b[5] == DigitByte(date.month / 10) && b[6] == DigitByte(date.month % 10) && b[7] == MINUS
    requires b[8] == DigitByte(date.day / 10) && b[9] == DigitByte(date.day % 10)
    requires b[10] == (if lowerT then LOWER_T else UPPER_T)
    requires b[11] == DigitByte(clock.hour / 10) && b[12] == DigitByte(clock.hour % 10) && b[13] == COLON
    requires b[14] == DigitByte(clock.minute / 10) && b[15] == DigitByte(clock.minute % 10) && b[16] == COLON
    requires b[17] == DigitByte(clock.second / 10) && b[18] == DigitByte(clock.second % 10)
    ensures b[..19] == Stamp(date, lowerT, clock)
  {
    hide DigitByte;
  }

  lemma DesignatorOf(b: Bytes, idx: nat, date: Date, clock: Clock, nanos: Nanos) returns (z: Designator)
    requires ValidDate(date) && idx <= |b|
    requires var r := ParseDesignator(b, idx, date, clock, nanos); r.Ok? || r == Err(Overflow)
    ensures b[idx..] == z.Text()
  {
    if b[idx] == UPPER_Z || b[idx] == LOWER_Z {
      z := Zulu(b[idx] == LOWER_Z);
    } else {
      z := ZeroOffset(b[idx] == MINUS);
    }
  }

  ghost predicate Spells(g: DateTime, b: Bytes) { g.WellFormed() && g.Text() == b }

  /** The parser accepts exactly the well-formed texts and returns the instant they denote;
      it never reports an overflow. */
  lemma ParseExact(b: Bytes, t: UtcTimestamp)
    ensures ParseRfc3339(b) == Ok(t) <==> exists g :: Spells(g, b) && Denotes(g) == t
    ensures ParseRfc3339(b).Ok? <==> exists g :: Spells(g, b)
    ensures ParseRfc3339(b) != Err(Overflow)
  {
    forall g | Spells(g, b) ensures ParseRfc3339(b) == Ok(Denotes(g)) {
      ParseOfText(g);
    }
    if ParseRfc3339(b).Ok? || ParseRfc3339(b) == Err(Overflow) {
      var g := DateTimeOf(b);
      assert Spells(g, b);
    }
  }

  // ----- Round trips -----

  lemma TwoPlaces(n: int)
    requires 0 <= n <= 99
    ensures ZeroPadded(n, 2) == [DigitByte(n / 10), DigitByte(n % 10)]
  {
    Pow10Values();
    ZeroPaddedIsPadded(n, 2);
    assert Padded(n / 10, 1) == Padded(n / 10 / 10, 0) + [48 + n / 10 % 10];
  }

  lemma FourPlaces(n: int)
    requires 0 <= n <= 9999
    ensures ZeroPadded(n, 4)
         == [DigitByte(n / 1000), DigitByte(n / 100 % 10), DigitByte(n / 10 % 10), DigitByte(n % 10)]
  {
    Pow10Values();
    ZeroPaddedIsPadded(n, 4);
    assert Padded(n, 4) == Padded(n / 10, 3) + [48 + n % 10];
    assert Padded(n / 10, 3) == Padded(n / 10 / 10, 2) + [48 + n / 10 % 10];
    assert Padded(n / 10 / 10, 2) == Padded(n / 10 / 10 / 10, 1) + [48 + n / 10 / 10 % 10];
    assert Padded(n / 10 / 10 / 10, 1) == Padded(n / 10 / 10 / 10 / 10, 0) + [48 + n / 10 / 10 / 10 % 10];
    assert n / 10 / 10 == n / 100 && n / 10 / 10 / 10 == n / 1000;
  }

  /** The canonical text of an instant: capital letters, no trailing zeros in the fraction. */
  function Canonical(date: Date, clock: Clock, nanos: Nanos): DateTime {
    DateTime(date, false, clock,
             if nanos == 0 then None else Some(TrimZeros(Padded(nanos, 9))), Zulu(false))
  }

  lemma StampIsPrinted(date: Date, clock: Clock)
    requires 0 <= date.year <= 9999 && ValidDate(date) && clock.Valid()
    ensures DateText(date) + [UPPER_T] + TimeText(clock) == Stamp(date, false, clock)
  {
    FourPlaces(date.year);
    TwoPlaces(date.month);
    TwoPlaces(date.day);
    TwoPlaces(clock.hour);
    TwoPlaces(clock.minute);
    TwoPlaces(clock.second);
  }

  lemma CanonicalNanos(nanos: Nanos)
    requires nanos != 0
    ensures var f := TrimZeros(Padded(nanos, 9));
            AllDigits(f) && 1 <= |f| <= 9 && NanosOf(f) == nanos
  {
    Pow10Values();
    ValueOfPadded(nanos, 9);
    TrimKeepsFraction(Padded(nanos, 9), 9);
    assert Pow10(0) == 1 && Value([]) == 0;
  }

  lemma ClockOfIsValid(daySecs: int)
    requires 0 <= daySecs < 86400
    ensures ClockOf(daySecs).Valid() && ClockOf(daySecs).Seconds() == daySecs
  {
  }

  /** Printing an instant of a four-digit year writes its canonical text. */
  lemma RenderIsCanonical(t: UtcTimestamp)
    requires FourDigitYear(t)
    ensures var g := Canonical(DateOf(t), ClockOf(t.secs % 86400), t.nanos);
            g.WellFormed() && Render(t) == g.Text() && Denotes(g) == t
  {
    var date, clock := DateOf(t), ClockOf(t.secs % 86400);
    DateOfFourDigitYear(t);
    CanonicalDenotes(date, clock, t.nanos);
    CanonicalText(date, clock, t.nanos);
  }

  lemma DateOfFourDigitYear(t: UtcTimestamp)
    requires FourDigitYear(t)
    ensures 0 <= DateOf(t).year <= 9999 && ClockOf(t.secs % 86400).Valid()
    ensures DaysFromCivil(DateOf(t)) * 86400 + ClockOf(t.secs % 86400).Seconds() == t.secs
  {
    ClockOfIsValid(t.secs % 86400);
    CivilFromDaysIsRightInverse(t.secs / 86400);
    WholeDays(t.secs, t.secs / 86400, DaysFromCivil(DateOf(t)));
    FourDigitYears(DateOf(t));
  }

  lemma WholeDays(secs: int, days: int, n: int)
    requires days == secs / 86400 && n == days && FIRST_SECOND <= secs < SECONDS_END
    ensures FIRST_SECOND <= n * 86400 < SECONDS_END && n * 86400 + secs % 86400 == secs
  {
  }

  lemma CanonicalDenotes(date: Date, clock: Clock, nanos: Nanos)
    requires 0 <= date.year <= 9999 && ValidDate(date) && clock.Valid()
    ensures Canonical(date, clock, nanos).WellFormed()
    ensures Canonical(date, clock, nanos).Nanos() == nanos
  {
    if nanos != 0 {
      CanonicalNanos(nanos);
    } else {
      assert Value([]) == 0;
    }
  }

  lemma CanonicalText(date: Date, clock: Clock, nanos: Nanos)
    requires 0 <= date.year <= 9999 && ValidDate(date) && clock.Valid()
    requires Canonical(date, clock, nanos).WellFormed()
    ensures var frac := if nanos == 0 then [] else [DOT] + TrimZeros(Padded(nanos, 9));
            DateText(date) + [UPPER_T] + TimeText(clock) + frac + [UPPER_Z]
            == Canonical(date, clock, nanos).Text()
  {
    hide DateText, TimeText, Stamp, TrimZeros, Padded;
    StampIsPrinted(date, clock);
    var stamp := Stamp(date, false, clock);
    var frac := if nanos == 0 then [] else [DOT] + TrimZeros(Padded(nanos, 9));
    assert Canonical(date, clock, nanos).Tail() == frac + [UPPER_Z];
    assert stamp + frac + [UPPER_Z] == stamp + (frac + [UPPER_Z]);
  }

  /** Printing and reading back restores an instant exactly when its year has four digits. */
  lemma RoundTrip(t: UtcTimestamp)
    ensures ParseRfc3339(Render(t)) == Ok(t) <==> FourDigitYear(t)
    ensures !FourDigitYear(t) ==>
      ParseRfc3339(Render(t)) == Err(if t.secs < 0 then InvalidDigit else InvalidDateSeparator)
  {
    if FourDigitYear(t) {
      RenderIsCanonical(t);
      ParseOfText(Canonical(DateOf(t), ClockOf(t.secs % 86400), t.nanos));
    } else {
      OtherYearsAreRefused(t);
    }
  }

  /** The first five bytes of a year outside 0000..9999 break the layout. */
  lemma OtherYearsAreRefused(t: UtcTimestamp)
    requires !FourDigitYear(t)
    ensures ParseRfc3339(Render(t)) == Err(if t.secs < 0 then InvalidDigit else InvalidDateSeparator)
  {
    var d := DateOf(t);
    CivilFromDaysIsRightInverse(t.secs / 86400);
    YearSide(d, t.secs);
    hide Render, YearText, DaysFromCivil, DateAt, ClockAt, RangeError, ParseTail, LayoutError;
    var year := YearText(d.year);
    RenderStartsWithYear(t);
    YearTextBreaksLayout(d.year);
    var b := Render(t);
    assert forall i :: 0 <= i < |year| ==> b[i] == year[i];
    if d.year > 9999 {
      assert forall i :: 0 <= i < 5 ==> IsDigit(b[i]);
    }
    BrokenLayout(b);
  }

  lemma BrokenLayout(b: Bytes)
    requires |b| >= 20
    ensures b[0] == MINUS ==> LayoutError(b) == Some(InvalidDigit)
    ensures (forall i :: 0 <= i < 5 ==> IsDigit(b[i])) ==> LayoutError(b) == Some(InvalidDateSeparator)
  {
  }

  /** A year outside 0000..9999 does not print as four digits and a hyphen. */
  lemma YearTextBreaksLayout(y: int)
    requires y < 0 || y > 9999
    ensures |YearText(y)| >= 4
    ensures y < 0 ==> YearText(y)[0] == MINUS
    ensures y > 9999 ==> |YearText(y)| >= 5 && AllDigits(YearText(y))
  {
    hide Print, Pow10, Zeros;
    if y > 9999 {
      Pow10Values();
      PrintLength(y, 4);
    }
  }

  lemma YearSide(d: Date, secs: int)
    requires ValidDate(d) && DaysFromCivil(d) == secs / 86400
    requires !(FIRST_SECOND <= secs < SECONDS_END)
    ensures if secs < 0 then d.year < 0 else d.year > 9999
  {
    hide DaysFromCivil;
    YearBounds(d);
  }

  lemma RenderStartsWithYear(t: UtcTimestamp)
    ensures var year := YearText(DateOf(t).year);
            |Render(t)| >= 20 && |year| <= |Render(t)| && Render(t)[..|year|] == year
  {
    hide Print, TrimZeros, Padded, CivilFromDays, Zeros;
    var year := YearText(DateOf(t).year);
    assert |year| >= 4;
    var stamp := DateText(DateOf(t)) + [UPPER_T] + TimeText(ClockOf(t.secs % 86400));
    assert |stamp| >= 19;
    assert stamp[..|year|] == year;
    assert Render(t)[..|stamp|] == stamp;
  }

  /** The letters and separators of a printed instant of a four-digit year. */
  lemma RenderLayout(t: UtcTimestamp)
    requires FourDigitYear(t)
    ensures var b := Render(t);
            && |b| >= 20 && b[4] == b[7] == '-' as int && b[10] == 'T' as int && b[13] == b[16] == ':' as int
            && b[|b| - 1] == 'Z' as int && (t.nanos == 0 ==> |b| == 20)
            && (t.nanos != 0 ==> b[19] == '.' as int && b[|b| - 2] != '0' as int)
  {
    hide Render, CivilFromDays, Padded, TrimZeros, FourDigitYear;
    RenderIsCanonical(t);
    var g := Canonical(DateOf(t), ClockOf(t.secs % 86400), t.nanos);
    var b := g.Text();
    assert b[19..] == g.Tail();
    assert b[|b| - 1] == g.Tail()[|g.Tail()| - 1];
    if t.nanos != 0 {
      NonZeroFraction(t.nanos);
      assert b[19] == g.Tail()[0];
      assert b[|b| - 2] == g.Tail()[|g.Tail()| - 2];
    }
  }

  lemma NonZeroFraction(nanos: Nanos)
    requires nanos != 0
    ensures var f := TrimZeros(Padded(nanos, 9)); f != [] && f[|f| - 1] != ZERO
  {
    CanonicalNanos(nanos);
  }

  /** A year prints with a sign if it is negative, and at least four characters wide. */
  lemma YearTextExact(y: int)
    ensures var t := YearText(y);
            && |t| >= 4 && (y < 0 ==> t[0] == '-' as int && AllDigits(t[1..]) && Value(t[1..]) == 0 - y)
            && (y >= 0 ==> AllDigits(t) && Value(t) == y)
            && (|t| > 4 ==> (y < 0 ==> t[1] != ZERO) && (y >= 0 ==> t[0] != ZERO))
  {
    hide Print, Value;
    var n, w := if y < 0 then -y else y, if y < 0 then 3 else 4;
    ZeroPaddedExact(n, w);
    if y < 0 {
      assert YearText(y)[1..] == ZeroPadded(n, w);
    }
  }

  lemma ZeroPaddedExact(n: nat, w: nat)
    ensures Value(ZeroPadded(n, w)) == n
    ensures |ZeroPadded(n, w)| > w > 0 ==> ZeroPadded(n, w)[0] != ZERO
  {
    hide Print, Value;
    ValueOfPrint(n);
    var p := Print(n);
    if |p| < w {
      ValueOfZeros(Zeros(w - |p|));
      ValueConcat(Zeros(w - |p|), p);
    }
  }

  /** Capital letters, `Z`, and no trailing zeros in the fraction. */
  function Capitalised(g: DateTime): DateTime {
    var f := if g.fraction.Some? then TrimZeros(g.fraction.value) else [];
    DateTime(g.date, false, g.clock, if f == [] then None else Some(f), Zulu(false))
  }

  /** Printing what a text denotes gives that text with capital letters and trimmed zeros. */
  lemma RenderOfDenotes(g: DateTime)
    requires g.WellFormed()
    ensures Capitalised(g).WellFormed()
    ensures Render(Denotes(g)) == Capitalised(g).Text()
  {
    hide TrimZeros, Padded, Pow10, Value, CivilFromDays, DaysFromCivil;
    var t := Denotes(g);
    SecsInRange(g);
    SplitSecs(DaysFromCivil(g.date), g.clock);
    CivilFromDaysIsLeftInverse(g.date);
    assert t.secs / 86400 == DaysFromCivil(g.date);
    assert DateOf(t) == g.date && ClockOf(t.secs % 86400) == g.clock;
    RenderIsCanonical(t);
    FractionOfNanos(if g.fraction.Some? then g.fraction.value else []);
  }

  lemma SplitSecs(days: int, clock: Clock)
    requires clock.Valid()
    ensures var secs := days * 86400 + clock.Seconds();
            secs / 86400 == days && ClockOf(secs % 86400) == clock
  {
    var secs := days * 86400 + clock.Seconds();
    assert 0 <= clock.Seconds() < 86400;
    assert secs / 86400 == days;
    assert secs % 86400 == clock.Seconds();
  }

  lemma FractionOfNanos(f: Bytes)
    requires AllDigits(f) && |f| <= 9
    ensures NanosOf(f) == 0 <==> TrimZeros(f) == []
    ensures TrimZeros(Padded(NanosOf(f), 9)) == TrimZeros(f)
  {
    hide Value, Pow10, TrimZeros, Padded;
    FractionInUnits(f, 9);
    TrimOfUnits(f, 9);
  }

  /** Whatever text is accepted, printing what was read and reading that again changes nothing. */
  lemma RenderOfParse(b: Bytes)
    requires ParseRfc3339(b).Ok?
    ensures FourDigitYear(ParseRfc3339(b).value)
    ensures ParseRfc3339(Render(ParseRfc3339(b).value)) == ParseRfc3339(b)
  {
    var g := DateTimeOf(b);
    ParseOfText(g);
    SecsInRange(g);
    RoundTrip(Denotes(g));
  }
}
