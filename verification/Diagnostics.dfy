/** Which error a text gets that is not a timestamp or not a decimal: a reference in characters. */
module Diagnostics {
  import opened Prelude
  import opened Digits
  import opened Calendar
  import Timestamp
  import FixedDecimal

  predicate Is(b: byte, c: char) { b == c as int }

  predicate DigitChar(b: byte) { '0' as int <= b <= '9' as int }

  /** The digit character class is the one both parsers test, and its values are the usual ones. */
  lemma DigitsAreAscii(b: byte)
    ensures IsDigit(b) <==> DigitChar(b)
    ensures IsDigit(b) ==> Digit(b) == b - '0' as int
    ensures ZERO == '0' as int && MINUS == '-' as int && PLUS == '+' as int
    ensures DOT == '.' as int && COLON == ':' as int
  {
  }

  /** The first `n` bytes of `s` are its leading digits. */
  ghost predicate LeadingDigits(s: Bytes, n: nat) {
    n <= |s| && (forall i :: 0 <= i < n ==> DigitChar(s[i])) && (n < |s| ==> !DigitChar(s[n]))
  }

  lemma LeadingDigitsEnd(s: Bytes, start: nat, n: nat)
    requires start <= |s| && LeadingDigits(s[start..], n)
    ensures start + n <= |s| && AllDigits(s[start..start + n]) && RunEnd(s, start) == start + n
  {
    var t, run := s[start..], s[start..start + n];
    assert forall i :: 0 <= i < n ==> run[i] == t[i];
    if n < |t| {
      assert t[n] == s[start + n];
    }
    RunEndIs(s, start, start + n);
  }

  // ----- Timestamps -----

  /** The layout of the first nineteen bytes: d for a digit, T for either letter T. */
  const LAYOUT := "dddd-dd-ddTdd:dd:dd"

  predicate Fits(b: byte, c: char) {
    if c == 'd' then DigitChar(b) else if c == 'T' then Is(b, 'T') || Is(b, 't') else Is(b, c)
  }

  ghost predicate FitsUpTo(b: Bytes, p: nat)
    requires |b| >= 20 && p <= 19
  {
    forall i :: 0 <= i < p ==> Fits(b[i], LAYOUT[i])
  }

  lemma LayoutByPosition(b: Bytes)
    requires |b| >= 20
    ensures FitsUpTo(b, 19) <==> Timestamp.LayoutError(b).None?
    ensures forall p :: 0 <= p < 19 && FitsUpTo(b, p) && !Fits(b[p], LAYOUT[p]) ==>
              Timestamp.LayoutError(b) == Some(LayoutFault(p))
  {
    hide Timestamp.LayoutError, Fits, FitsUpTo;
    LayoutFits(b);
    forall p | 0 <= p < 19 && FitsUpTo(b, p) && !Fits(b[p], LAYOUT[p])
      ensures Timestamp.LayoutError(b) == Some(LayoutFault(p))
    {
      LayoutMisfit(b, p);
    }
  }

  lemma LayoutFits(b: Bytes)
    requires |b| >= 20
    ensures FitsUpTo(b, 19) <==> Timestamp.LayoutError(b).None?
  {
  }

  lemma LayoutMisfit(b: Bytes, p: nat)
    requires |b| >= 20 && p < 19 && FitsUpTo(b, p) && !Fits(b[p], LAYOUT[p])
    ensures Timestamp.LayoutError(b) == Some(LayoutFault(p))
  {
    hide Timestamp.LayoutError;
    if p < 10 {
      DateMisfit(b, p);
    } else {
      TimeMisfit(b, p);
    }
  }

  lemma DateMisfit(b: Bytes, p: nat)
    requires |b| >= 20 && p < 10 && FitsUpTo(b, p) && !Fits(b[p], LAYOUT[p])
    ensures Timestamp.LayoutError(b) == Some(LayoutFault(p))
  {
  }

  lemma TimeMisfit(b: Bytes, p: nat)
    requires |b| >= 20 && 10 <= p < 19 && FitsUpTo(b, p) && !Fits(b[p], LAYOUT[p])
    ensures Timestamp.LayoutError(b) == Some(LayoutFault(p))
  {
  }

  /** What a byte that does not fit the layout is reported as. */
  function LayoutFault(p: nat): Timestamp.TimestampParseError
    requires p < 19
  {
    if LAYOUT[p] == 'd' then Timestamp.InvalidDigit
    else if p < 10 then Timestamp.InvalidDateSeparator
    else Timestamp.InvalidTimeSeparator
  }

  lemma FieldsAreDigits(b: Bytes)
    requires |b| >= 20 && FitsUpTo(b, 19)
    ensures AllDigits(b[..4]) && AllDigits(b[5..7]) && AllDigits(b[8..10])
    ensures AllDigits(b[11..13]) && AllDigits(b[14..16]) && AllDigits(b[17..19])
  {
    LayoutByPosition(b);
  }

  /** Of a text that fits the layout, the first field out of range decides: month, day, hour, minute,
      second, in this order. */
  ghost function RangeFault(b: Bytes): Option<Timestamp.TimestampParseError>
    requires |b| >= 20 && FitsUpTo(b, 19)
  {
    FieldsAreDigits(b);
    var year, month, day := Value(b[..4]), Value(b[5..7]), Value(b[8..10]);
    if month < 1 || month > 12 then Some(Timestamp.MonthOutOfRange)
    else if day < 1 || day > LastDayOfMonth(year, month) then Some(Timestamp.DayOutOfRange)
    else if Value(b[11..13]) > 23 then Some(Timestamp.HourOutOfRange)
    else if Value(b[14..16]) > 59 then Some(Timestamp.MinuteOutOfRange)
    else if Value(b[17..19]) > 59 then Some(Timestamp.SecondOutOfRange)
    else None
  }

  lemma PairValue(b: Bytes, i: nat)
    requires i + 2 <= |b| && Timestamp.TwoDigits(b, i)
    ensures AllDigits(b[i..i + 2]) && Value(b[i..i + 2]) == Timestamp.Two(b, i)
  {
    var s := b[i..i + 2];
    assert s == ([] + [b[i]]) + [b[i + 1]];
    ValuePush([], b[i]);
    ValuePush([b[i]], b[i + 1]);
    NoDigits();
    assert [] + [b[i]] == [b[i]];
  }

  lemma YearValue(b: Bytes)
    requires |b| >= 4 && Timestamp.TwoDigits(b, 0) && Timestamp.TwoDigits(b, 2)
    ensures AllDigits(b[..4]) && Value(b[..4]) == Timestamp.Year(b)
  {
    PairValue(b, 0);
    assert b[..4] == (b[0..2] + [b[2]]) + [b[3]];
    ValuePush(b[0..2], b[2]);
    ValuePush(b[0..2] + [b[2]], b[3]);
  }

  /** What is left of a text after the layout: an optional fraction and the UTC designator. */
  function TailFault(rest: Bytes, digits: nat): Option<Timestamp.TimestampParseError>
    requires digits < |rest|
  {
    if Is(rest[0], '.') then
      if digits < 1 || digits > 9 then Some(Timestamp.FractionInvalid)
      else DesignatorFault(rest[1 + digits..])
    else DesignatorFault(rest)
  }

  /** The designator is Z or z, or a numeric offset of zero, and nothing follows it. */
  function DesignatorFault(z: Bytes): Option<Timestamp.TimestampParseError> {
    if z == [] then Some(Timestamp.MissingUtcDesignator)
    else if Is(z[0], 'Z') || Is(z[0], 'z') then
      if |z| > 1 then Some(Timestamp.TrailingGarbage) else None
    else if Is(z[0], '+') || Is(z[0], '-') then
      if |z| < 6 then Some(Timestamp.UnsupportedOffset)
      else if !DigitChar(z[1]) || !DigitChar(z[2]) then Some(Timestamp.InvalidDigit)
      else if !Is(z[3], ':') then Some(Timestamp.UnsupportedOffset)
      else if !DigitChar(z[4]) || !DigitChar(z[5]) then Some(Timestamp.InvalidDigit)
      else if !(Is(z[1], '0') && Is(z[2], '0') && Is(z[4], '0') && Is(z[5], '0')) then
        Some(Timestamp.UnsupportedOffset)
      else if |z| > 6 then Some(Timestamp.TrailingGarbage)
      else None
    else Some(Timestamp.MissingUtcDesignator)
  }

  lemma DesignatorAt(b: Bytes, idx: nat, date: Date, clock: Timestamp.Clock, nanos: Timestamp.Nanos)
    requires ValidDate(date) && idx <= |b|
    ensures var r := Timestamp.ParseDesignator(b, idx, date, clock, nanos);
            match DesignatorFault(b[idx..])
            case Some(e) => r == Err(e)
            case None => r == Timestamp.Instant(date, clock, nanos)
  {
    hide Timestamp.Instant;
    var z := b[idx..];
    assert forall i :: 0 <= i < |z| ==> z[i] == b[idx + i];
  }

  /** The error of every refused timestamp: too short, else the first byte that does not fit the
      layout, else the first field out of range, else the first fault of the rest. */
  lemma TimestampError(b: Bytes, digits: nat)
    requires |b| >= 20 ==> LeadingDigits(b[20..], digits)
    ensures |b| < 20 ==> Timestamp.ParseRfc3339(b) == Err(Timestamp.TooShort)
    ensures |b| >= 20 ==> forall p :: 0 <= p < 19 && FitsUpTo(b, p) && !Fits(b[p], LAYOUT[p]) ==>
              Timestamp.ParseRfc3339(b) == Err(LayoutFault(p))
    ensures |b| >= 20 && FitsUpTo(b, 19) ==>
              var fault := if RangeFault(b).Some? then RangeFault(b) else TailFault(b[19..], digits);
              if fault.Some? then Timestamp.ParseRfc3339(b) == Err(fault.value)
              else Timestamp.ParseRfc3339(b).Ok?
  {
    hide Timestamp.LayoutError, Timestamp.ParseTail, Timestamp.RangeError, FitsUpTo, Fits, RangeFault, TailFault;
    if |b| >= 20 {
      LayoutByPosition(b);
      if FitsUpTo(b, 19) {
        RangeByField(b);
        if RangeFault(b).None? {
          TailByCharacter(b, digits);
        }
      }
    }
  }

  lemma RangeByField(b: Bytes)
    requires |b| >= 20 && FitsUpTo(b, 19) && Timestamp.LayoutError(b).None?
    ensures RangeFault(b) == Timestamp.RangeError(Timestamp.DateAt(b), Timestamp.ClockAt(b))
  {
    hide Timestamp.Year, Timestamp.Two, Value, FitsUpTo, LastDayOfMonth;
    YearValue(b);
    PairValue(b, 5);
    PairValue(b, 8);
    PairValue(b, 11);
    PairValue(b, 14);
    PairValue(b, 17);
  }

  lemma NoOverflow(b: Bytes)
    ensures Timestamp.ParseRfc3339(b) != Err(Timestamp.Overflow)
  {
    Timestamp.ParseExact(b, Timestamp.UNIX_EPOCH);
  }

  lemma TailByCharacter(b: Bytes, digits: nat)
    requires |b| >= 20 && LeadingDigits(b[20..], digits) && Timestamp.LayoutError(b).None?
    requires Timestamp.RangeError(Timestamp.DateAt(b), Timestamp.ClockAt(b)).None?
    ensures match TailFault(b[19..], digits)
            case Some(e) => Timestamp.ParseRfc3339(b) == Err(e)
            case None => Timestamp.ParseRfc3339(b).Ok?
  {
    hide Timestamp.LayoutError, Timestamp.ParseDesignator, DesignatorFault, Timestamp.DateAt, Timestamp.ClockAt;
    var date, clock := Timestamp.DateAt(b), Timestamp.ClockAt(b);
    var rest, end := b[19..], 20 + digits;
    LeadingDigitsEnd(b, 20, digits);
    NoOverflow(b);
    if Is(rest[0], '.') {
      if 1 <= digits <= 9 {
        assert rest[1 + digits..] == b[end..];
        DesignatorAt(b, end, date, clock, Timestamp.NanosOf(b[20..end]));
      }
    } else {
      DesignatorAt(b, 19, date, clock, 0);
    }
  }

  // ----- Decimals -----

  function Unsigned(s: Bytes): Bytes { if s != [] && Is(s[0], '-') then s[1..] else s }

  /** The error of every refused decimal, by its leading digits and those after a point: first what
      is not spelled as the grammar asks, then what is spelled well but cannot be represented. */
  lemma DecimalError(s: Bytes, whole: nat, places: nat)
    requires LeadingDigits(Unsigned(s), whole)
    requires var rest := Unsigned(s)[whole..]; rest != [] && Is(rest[0], '.') ==> LeadingDigits(rest[1..], places)
    ensures var body := Unsigned(s);
            var rest := body[whole..];
            var dotted := rest != [] && Is(rest[0], '.');
            var r := FixedDecimal.Parse(s);
            if s == [] then r == Err(FixedDecimal.EmptyInput)
            else if whole == 0 then r == Err(FixedDecimal.MissingIntegerDigit)
            else if Is(body[0], '0') && whole > 1 then r == Err(FixedDecimal.LeadingZeroInIntegerPart)
            else if dotted && places == 0 then r == Err(FixedDecimal.EmptyFractionalPart)
            else if |rest| > (if dotted then 1 + places else 0) then r == Err(FixedDecimal.TrailingGarbage)
            else if dotted && places > 8 then r == Err(FixedDecimal.TooManyFractionalDigits)
            else if body != s && ZerosAndPoints(body) then r == Err(FixedDecimal.NegativeZero)
            else r.Ok? || r == Err(FixedDecimal.Overflow)
  {
    hide FixedDecimal.ParseFraction, FixedDecimal.Numeral.Read, RunEnd, LeadingDigits, ZerosAndPoints;
    var body := Unsigned(s);
    var start := |s| - |body|;
    StartOfDigits(body, whole);
    if s != [] && whole > 0 && !(Is(body[0], '0') && whole > 1) {
      assert s[start..] == body;
      LeadingDigitsEnd(s, start, whole);
      var idx := start + whole;
      assert s[idx..] == body[whole..] && s[start..idx] == body[..whole];
      assert Is(body[0], '0') ==> body[..whole] == [ZERO];
      FractionFault(s, start == 1, body[..whole], idx, places);
      var rest := body[whole..];
      if |rest| == if rest != [] && Is(rest[0], '.') && places > 0 then 1 + places else 0 {
        ReadFault(body, whole, start == 1);
      }
    }
  }

  lemma StartOfDigits(body: Bytes, whole: nat)
    requires LeadingDigits(body, whole)
    ensures whole <= |body| && (whole == 0 <==> body == [] || !IsDigit(body[0]))
    ensures whole > 1 ==> IsDigit(body[1])
    ensures whole == 1 && |body| > 1 ==> !IsDigit(body[1])
  {
  }

  predicate ZerosAndPoints(s: Bytes) { forall i :: 0 <= i < |s| ==> Is(s[i], '0') || Is(s[i], '.') }

  lemma ReadFault(body: Bytes, whole: nat, negative: bool)
    requires 0 < whole <= |body| && AllDigits(body[..whole]) && (Is(body[0], '0') ==> whole == 1)
    requires var rest := body[whole..]; rest != [] ==> Is(rest[0], '.') && AllDigits(rest[1..])
    ensures var rest := body[whole..];
            var f := if rest == [] then None else Some(rest[1..]);
            var r := FixedDecimal.Numeral(negative, body[..whole], f).Read();
            if |rest| > 9 then r == Err(FixedDecimal.TooManyFractionalDigits)
            else if negative && ZerosAndPoints(body) then r == Err(FixedDecimal.NegativeZero)
            else r.Ok? || r == Err(FixedDecimal.Overflow)
  {
    hide FixedDecimal.Numeral.Magnitude;
    var rest, w := body[whole..], body[..whole];
    assert w[0] == body[0];
    if ZerosAndPoints(body) {
      assert forall i :: 0 <= i < |rest| ==> rest[i] == body[whole + i];
    } else if w == [ZERO] {
      var i :| 0 <= i < |body| && !(Is(body[i], '0') || Is(body[i], '.'));
      assert i > whole && rest[1..][i - whole - 1] == body[i];
    }
  }

  lemma FractionFault(s: Bytes, negative: bool, whole: Bytes, idx: nat, places: nat)
    requires idx <= |s| && AllDigits(whole)
    requires s[idx..] != [] && Is(s[idx], '.') ==> LeadingDigits(s[idx..][1..], places)
    ensures var rest := s[idx..];
            var dotted := rest != [] && Is(rest[0], '.');
            var r := FixedDecimal.ParseFraction(s, negative, whole, idx);
            if dotted && places == 0 then r == Err(FixedDecimal.EmptyFractionalPart)
            else if |rest| > (if dotted then 1 + places else 0) then r == Err(FixedDecimal.TrailingGarbage)
            else
              var f := if dotted then Some(rest[1..]) else None;
              (dotted ==> AllDigits(rest[1..]) && |rest[1..]| == places)
              && r == FixedDecimal.Numeral(negative, whole, f).Read()
  {
    var rest := s[idx..];
    if rest != [] && Is(rest[0], '.') {
      assert rest[1..] == s[idx + 1..];
      LeadingDigitsEnd(s, idx + 1, places);
      if idx + 1 + places == |s| {
        assert s[idx + 1..|s|] == rest[1..];
      }
    }
  }
}
