/** The fixed-point decimal of decimal.rs: grammar, reader, printer and checked arithmetic. */
module FixedDecimal {
  import opened Prelude
  import opened Digits

  const SCALE: int := 100_000_000

  datatype Decimal = Decimal(raw: i128) {
    predicate IsZero() { raw == 0 }

    predicate IsNegative() { raw < 0 }

    function CheckedAdd(other: Decimal): Option<Decimal> { Checked(raw + other.raw) }

    function CheckedSub(other: Decimal): Option<Decimal> { Checked(raw - other.raw) }

    /** The product is taken at full scale first, and must fit there before it is rescaled. */
    function CheckedMul(other: Decimal): Option<Decimal> {
      var scaledUp := raw * other.raw;
      if FitsI128(scaledUp) then Checked(TruncDiv(scaledUp, SCALE)) else None
    }

    /** `i128::abs`, which wraps at the minimum in a release build. */
    function Abs(): Decimal {
      if raw >= 0 || raw == I128_MIN then this else Decimal(-raw)
    }
  }

  const D_ZERO := Decimal(0)

  function Checked(x: int): Option<Decimal> {
    if FitsI128(x) then Some(Decimal(x)) else None
  }

  function UnwrapOr(d: Option<Decimal>, default: Decimal): Decimal {
    match d case Some(v) => v case None => default
  }

  /** A decimal other than the one value whose text cannot be read back. */
  type Readable = d: Decimal | d.raw != I128_MIN witness Decimal(0)

  datatype ParseError =
    | EmptyInput
    | LeadingZeroInIntegerPart
    | MissingIntegerDigit
    | InvalidDigit
    | EmptyFractionalPart
    | TrailingGarbage
    | NegativeZero
    | TooManyFractionalDigits
    | Overflow

  // ----- The grammar -?(0|[1-9][0-9]*)(\.[0-9]+)? -----

  datatype Numeral = Numeral(negative: bool, whole: Bytes, fraction: Option<Bytes>) {
    ghost predicate WellFormed() {
      && AllDigits(whole) && |whole| > 0 && (whole[0] == ZERO ==> |whole| == 1)
      && (fraction.Some? ==> AllDigits(fraction.value) && |fraction.value| > 0)
    }

    function Text(): Bytes {
      (if negative then [MINUS] else []) + whole
      + (if fraction.Some? then [DOT] + fraction.value else [])
    }

    function FractionDigits(): Bytes {
      if fraction.Some? then fraction.value else []
    }

    /** The absolute value in units of 10^-8. */
    function Magnitude(): nat
      requires AllDigits(whole) && AllDigits(FractionDigits()) && |FractionDigits()| <= 8
    {
      Value(whole) * SCALE + Value(FractionDigits()) * Pow10(8 - |FractionDigits()|)
    }

    /** What a well-spelled numeral reads as, with the errors in the order they are found. */
    function Read(): Result<Decimal, ParseError>
      requires AllDigits(whole) && AllDigits(FractionDigits())
    {
      if |FractionDigits()| > 8 then Err(TooManyFractionalDigits)
      else if negative && whole == [ZERO] && AllZeros(FractionDigits()) then Err(NegativeZero)
      else if Magnitude() > I128_MAX then Err(Overflow)
      else Ok(Decimal(if negative then 0 - Magnitude() else Magnitude()))
    }
  }

  // ----- Reading -----

  function Parse(s: Bytes): Result<Decimal, ParseError> {
    if s == [] then Err(EmptyInput) else
    var negative := s[0] == MINUS;
    var start := if negative then 1 else 0;
    if start >= |s| || !IsDigit(s[start]) then Err(MissingIntegerDigit)
    else if s[start] == ZERO then
      if start + 1 < |s| && IsDigit(s[start + 1]) then Err(LeadingZeroInIntegerPart)
      else ParseFraction(s, negative, [ZERO], start + 1)
    else
      var end := RunEnd(s, start);
      ParseFraction(s, negative, s[start..end], end)
  }

  /** Reads on from `idx`, where the integer part `whole` ended. */
  function ParseFraction(s: Bytes, negative: bool, whole: Bytes, idx: nat): Result<Decimal, ParseError>
    requires idx <= |s| && AllDigits(whole)
  {
    if idx < |s| && s[idx] == DOT then
      var end := RunEnd(s, idx + 1);
      if end == idx + 1 then Err(EmptyFractionalPart)
      else if end != |s| then Err(TrailingGarbage)
      else Numeral(negative, whole, Some(s[idx + 1..end])).Read()
    else if idx != |s| then Err(TrailingGarbage)
    else Numeral(negative, whole, None).Read()
  }

  /** The scan of decimal.rs, index by index. */
  method ParseByScanning(s: Bytes) returns (r: Result<Decimal, ParseError>)
    ensures r == Parse(s)
  {
    if |s| == 0 {
      return Err(EmptyInput);
    }
    var idx := 0;
    var negative := s[0] == MINUS;
    if negative {
      idx := idx + 1;
    }
    if idx >= |s| || !IsDigit(s[idx]) {
      return Err(MissingIntegerDigit);
    }
    var intStart := idx;
    if s[idx] == ZERO {
      idx := idx + 1;
      if idx < |s| && IsDigit(s[idx]) {
        return Err(LeadingZeroInIntegerPart);
      }
      assert s[intStart..idx] == [ZERO];
    } else {
      idx := ScanDigits(s, idx);
    }
    r := ScanFraction(s, negative, s[intStart..idx], idx);
  }

  method ScanFraction(s: Bytes, negative: bool, intPart: Bytes, start: nat)
    returns (r: Result<Decimal, ParseError>)
    requires start <= |s| && AllDigits(intPart)
    ensures r == ParseFraction(s, negative, intPart, start)
  {
    var idx := start;
    var fracPart: Bytes := [];
    ghost var fraction: Option<Bytes> := None;
    if idx < |s| && s[idx] == DOT {
      idx := idx + 1;
      var fracStart := idx;
      idx := ScanDigits(s, idx);
      if idx == fracStart {
        return Err(EmptyFractionalPart);
      }
      fracPart := s[fracStart..idx];
      fraction := Some(fracPart);
    }
    if idx != |s| {
      return Err(TrailingGarbage);
    }
    ghost var n := Numeral(negative, intPart, fraction);
    assert n.FractionDigits() == fracPart;
    r := ReadParts(negative, intPart, fracPart, n);
  }

  method ReadParts(negative: bool, intPart: Bytes, fracPart: Bytes, ghost n: Numeral)
    returns (r: Result<Decimal, ParseError>)
    requires AllDigits(intPart) && AllDigits(fracPart)
    requires n.negative == negative && n.whole == intPart && n.FractionDigits() == fracPart
    ensures r == n.Read()
  {
    hide Value, Pow10, AllZeros, Numeral.Magnitude;
    if |fracPart| > 8 {
      return Err(TooManyFractionalDigits);
    }
    MagnitudeParts(n);
    var isAllZeroFrac := AllZeros(fracPart);
    if negative && intPart == [ZERO] && isAllZeroFrac {
      return Err(NegativeZero);
    }
    var intValue := Value(intPart);
    if intValue > I128_MAX {
      return Err(Overflow);
    }
    var fracValue := SumPlaces(fracPart);
    var magnitude := intValue * SCALE + fracValue;
    if magnitude > I128_MAX {
      return Err(Overflow);
    }
    r := Ok(Decimal(if negative then 0 - magnitude else magnitude));
  }

  lemma MagnitudeParts(n: Numeral)
    requires AllDigits(n.whole) && AllDigits(n.FractionDigits()) && |n.FractionDigits()| <= 8
    ensures var f := n.FractionDigits();
            n.Magnitude() == Value(n.whole) * SCALE + Value(f) * Pow10(8 - |f|) >= Value(n.whole)
  {
    hide Value, Pow10;
    var f := n.FractionDigits();
    ProductMonotone(Pow10(8 - |f|), 0, Value(f));
  }

  /** Steps over the run of digits that begins at `start`, and stops behind it. */
  method ScanDigits(s: Bytes, start: nat) returns (idx: nat)
    requires start <= |s|
    ensures start <= idx <= |s| && AllDigits(s[start..idx])
    ensures idx < |s| ==> !IsDigit(s[idx])
    ensures idx == RunEnd(s, start)
  {
    idx := start;
    while idx < |s| && IsDigit(s[idx])
      invariant start <= idx <= |s| && AllDigits(s[start..idx])
    {
      assert s[start..idx + 1] == s[start..idx] + [s[idx]];
      idx := idx + 1;
    }
    RunEndIs(s, start, idx);
  }

  /** The sum over the fraction of digit * 10^(7 - i), the fraction in units of 10^-8. */
  method SumPlaces(frac: Bytes) returns (sum: nat)
    requires AllDigits(frac) && |frac| <= 8
    ensures sum == Value(frac) * Pow10(8 - |frac|)
  {
    hide Value, Pow10;
    sum := 0;
    var i := 0;
    NoDigits();
    assert frac[..0] == [];
    while i < |frac|
      invariant 0 <= i <= |frac|
      invariant sum == Value(frac[..i]) * Pow10(8 - i)
    {
      var place := 8 - 1 - i;
      ghost var v := Value(frac[..i]);
      ValuePush(frac[..i], frac[i]);
      assert frac[..i] + [frac[i]] == frac[..i + 1];
      PlaceValue(v, Digit(frac[i]), place, 8 - i);
      sum := sum + Digit(frac[i]) * Pow10(place);
      i := i + 1;
    }
    assert frac[..i] == frac;
  }

  lemma PlaceValue(v: nat, digit: nat, place: nat, above: nat)
    requires above == place + 1
    ensures v * Pow10(above) + digit * Pow10(place) == (10 * v + digit) * Pow10(place)
  {
    MulPow(v, place);
  }

  // ----- Printing -----

  /** `i128::unsigned_abs`: total, since u128 holds the magnitude of the minimum. */
  function Unsigned(d: Decimal): nat { if d.raw < 0 then 0 - d.raw else d.raw }

  /** The numeral that prints `d`. */
  function Canonical(d: Decimal): Numeral {
    var abs := Unsigned(d);
    var frac := abs % SCALE;
    Numeral(d.raw < 0, Print(abs / SCALE),
            if frac == 0 then None else Some(TrimZeros(Padded(frac, 8))))
  }

  function Render(d: Decimal): Bytes { Canonical(d).Text() }

  method ToDecimalString(d: Decimal) returns (s: Bytes)
    ensures s == Render(d)
  {
    var negative := d.raw < 0;
    var abs := Unsigned(d);
    var intPart, fracPart := abs / SCALE, abs % SCALE;
    var sign: Bytes := if negative then [MINUS] else [];
    if fracPart == 0 {
      s := sign + Print(intPart);
    } else {
      Pow10Values();
      ZeroPaddedIsPadded(fracPart, 8);
      var fracStr := PopZeros(ZeroPadded(fracPart, 8));
      s := sign + Print(intPart) + [DOT] + fracStr;
      assert s == Render(d);
    }
  }

  /** Drops trailing zeros one at a time; an all-zero text becomes empty. */
  method PopZeros(s: Bytes) returns (r: Bytes)
    ensures r == TrimZeros(s)
  {
    r := s;
    while |r| > 0 && r[|r| - 1] == ZERO
      invariant TrimZeros(r) == TrimZeros(s)
    {
      r := r[..|r| - 1];
    }
  }

  // ----- The exact language -----

  /** Where the parts of a written numeral stand. */
  lemma TextShape(n: Numeral)
    requires n.WellFormed()
    ensures var s := n.Text();
            var start := if n.negative then 1 else 0;
            var idx := start + |n.whole|;
            && |s| >= idx && (s[0] == MINUS <==> n.negative)
            && s[start..idx] == n.whole && IsDigit(s[start]) && s[start] == n.whole[0]
            && (if n.fraction.None? then idx == |s|
                else idx < |s| && s[idx] == DOT && s[idx + 1..|s|] == n.fraction.value)
  {
    var s := n.Text();
    var start := if n.negative then 1 else 0;
    var idx := start + |n.whole|;
    var sign: Bytes := if n.negative then [MINUS] else [];
    var tail := if n.fraction.Some? then [DOT] + n.fraction.value else [];
    assert s == sign + n.whole + tail;
    assert s[start] == n.whole[0];
    assert s[idx..] == tail;
    if n.fraction.Some? {
      assert s[idx] == tail[0];
      assert s[idx + 1..|s|] == tail[1..];
    }
  }

  /** The integer part ends where its digits end. */
  lemma ParseReachesFraction(s: Bytes, whole: Bytes, idx: nat)
    requires 0 < idx <= |s|
    requires var start := if s[0] == MINUS then 1 else 0;
             start < idx && whole == s[start..idx] && (whole[0] == ZERO ==> |whole| == 1)
    requires AllDigits(whole) && (idx < |s| ==> !IsDigit(s[idx]))
    ensures Parse(s) == ParseFraction(s, s[0] == MINUS, whole, idx)
  {
    var start := if s[0] == MINUS then 1 else 0;
    assert s[start] == whole[0];
    if whole[0] == ZERO {
      assert whole == [ZERO];
    } else {
      RunEndIs(s, start, idx);
    }
  }

  /** A well-formed numeral, written out, is read as what it says. */
  lemma ParseOfText(n: Numeral)
    requires n.WellFormed()
    ensures Parse(n.Text()) == n.Read()
  {
    var idx := (if n.negative then 1 else 0) + |n.whole|;
    TextShape(n);
    ParseReachesFraction(n.Text(), n.whole, idx);
    ParseFractionOfText(n, idx);
  }

  lemma ParseFractionOfText(n: Numeral, idx: nat)
    requires n.WellFormed() && idx == (if n.negative then 1 else 0) + |n.whole|
    requires idx <= |n.Text()|
    ensures ParseFraction(n.Text(), n.negative, n.whole, idx) == n.Read()
  {
    TextShape(n);
    if n.fraction.Some? {
      RunEndIs(n.Text(), idx + 1, |n.Text()|);
    }
  }

  /** The errors that a text outside the grammar gets. */
  predicate IsGrammarError(e: ParseError) {
    e.EmptyInput? || e.LeadingZeroInIntegerPart? || e.MissingIntegerDigit?
    || e.EmptyFractionalPart? || e.TrailingGarbage?
  }

  /** The numeral that an accepted, or at least well-spelled, text spells. */
  lemma NumeralOf(s: Bytes) returns (n: Numeral)
    requires Parse(s).Ok? || !IsGrammarError(Parse(s).error)
    ensures n.WellFormed() && n.Text() == s
  {
    var negative := s[0] == MINUS;
    var start := if negative then 1 else 0;
    var sign: Bytes := if negative then [MINUS] else [];
    assert s[..start] == sign;
    var idx := if s[start] == ZERO then start + 1 else RunEnd(s, start);
    var whole := s[start..idx];
    if s[start] == ZERO {
      assert whole == [ZERO];
    }
    assert whole[0] == s[start];
    var fraction := FractionOf(s, negative, whole, idx);
    n := Numeral(negative, whole, fraction);
    assert s[..idx] == sign + whole;
  }

  lemma FractionOf(s: Bytes, negative: bool, whole: Bytes, idx: nat) returns (f: Option<Bytes>)
    requires idx <= |s| && AllDigits(whole)
    requires var r := ParseFraction(s, negative, whole, idx); r.Ok? || !IsGrammarError(r.error)
    ensures f.Some? ==> AllDigits(f.value) && |f.value| > 0
    ensures s == s[..idx] + if f.Some? then [DOT] + f.value else []
  {
    if idx < |s| {
      assert s[idx + 1..|s|] == s[idx + 1..];
      f := Some(s[idx + 1..]);
    } else {
      f := None;
    }
  }

  ghost predicate Spells(n: Numeral, s: Bytes) { n.WellFormed() && n.Text() == s }

  /** Whether the value is representable: at most 8 places, no negative zero, within i128. */
  predicate Representable(n: Numeral)
    requires AllDigits(n.whole) && AllDigits(n.FractionDigits())
  {
    && |n.FractionDigits()| <= 8
    && !(n.negative && Value(n.whole) == 0 && Value(n.FractionDigits()) == 0)
    && n.Magnitude() <= I128_MAX
  }

  lemma ReadAccepts(n: Numeral)
    requires n.WellFormed()
    ensures n.Read().Ok? <==> Representable(n)
  {
    ValueZero(n.whole);
    ValueZero(n.FractionDigits());
    if n.whole[0] == ZERO {
      assert n.whole == [ZERO];
    }
  }

  /** Parsing succeeds on exactly the representable texts of the grammar, errors outside the
      grammar are grammar errors, and the digit error is never reported. */
  lemma ParseExact(s: Bytes)
    ensures Parse(s).Ok? <==> exists n :: Spells(n, s) && Representable(n)
    ensures Parse(s).Err? ==> Parse(s).error != InvalidDigit
    ensures (Parse(s).Err? && IsGrammarError(Parse(s).error)) <==> !exists n :: Spells(n, s)
  {
    if n :| Spells(n, s) {
      ParseOfText(n);
    }
    forall n | Spells(n, s) ensures Representable(n) <==> Parse(s).Ok? {
      ParseOfText(n);
      ReadAccepts(n);
    }
    if Parse(s).Ok? || !IsGrammarError(Parse(s).error) {
      var n := NumeralOf(s);
      ParseOfText(n);
      assert Spells(n, s);
    }
  }

  /** The value read is exact: reading all digits as one integer over 10^places gives raw/10^8. */
  lemma ReadIsExact(n: Numeral)
    requires n.WellFormed() && n.Read().Ok?
    ensures var all := n.whole + n.FractionDigits();
            AllDigits(all)
            && n.Read().value.raw * Pow10(|n.FractionDigits()|)
               == (if n.negative then 0 - Value(all) else Value(all)) * SCALE
  {
    var f := n.FractionDigits();
    var p, q := Pow10(|f|), Pow10(8 - |f|);
    ValueConcat(n.whole, f);
    Pow10Values();
    PowAdd(|f|, 8 - |f|);
    assert p * q == SCALE;
    ScaleUp(Value(n.whole), Value(f), p, q);
    NegateProduct(n.Magnitude(), p);
    NegateProduct(Value(n.whole + f), SCALE);
  }

  lemma ScaleUp(w: int, v: int, p: int, q: int)
    requires p * q == SCALE
    ensures (w * SCALE + v * q) * p == (w * p + v) * SCALE
  {
    assert (v * q) * p == v * SCALE by {
      MulAssoc(v, q, p);
      assert q * p == SCALE;
    }
    assert (w * SCALE) * p == (w * p) * SCALE;
    assert (w * SCALE + v * q) * p == (w * SCALE) * p + (v * q) * p;
  }

  lemma NegateProduct(x: int, y: int)
    ensures (0 - x) * y == 0 - x * y
  {
  }

  // ----- Round trips -----

  lemma CanonicalIsWellFormed(d: Decimal)
    ensures Canonical(d).WellFormed()
    ensures |Canonical(d).FractionDigits()| <= 8
    ensures Canonical(d).Magnitude() == Unsigned(d)
  {
    hide Value, Print, Padded, TrimZeros, Pow10;
    var abs := Unsigned(d);
    var frac := abs % SCALE;
    ValueOfPrint(abs / SCALE);
    Pow10Values();
    ValueOfPadded(frac, 8);
    TrimKeepsFraction(Padded(frac, 8), 8);
    NoDigits();
    if frac == 0 {
      assert Canonical(d).FractionDigits() == [];
    } else {
      ValueZero(TrimZeros(Padded(frac, 8)));
    }
    assert abs == SCALE * (abs / SCALE) + frac;
    LeadingZeroMeansZero(Print(abs / SCALE));
  }

  lemma LeadingZeroMeansZero(p: Bytes)
    requires AllDigits(p) && |p| > 0 && (|p| == 1 || p[0] != ZERO)
    ensures p[0] == ZERO ==> |p| == 1
  {
  }

  /** What is printed is read back unchanged, except for the minimum, which overflows. */
  lemma RoundTrip(d: Decimal)
    ensures Parse(Render(d)) == if d.raw == I128_MIN then Err(Overflow) else Ok(d)
  {
    var n := Canonical(d);
    CanonicalIsWellFormed(d);
    ParseOfText(n);
    if n.negative {
      assert Unsigned(d) > 0;
      if n.whole == [ZERO] && AllZeros(n.FractionDigits()) {
        ValueOfZeros(n.whole);
        ValueOfZeros(n.FractionDigits());
      }
    }
  }

  /** A numeral with its trailing fraction zeros dropped, and the point with them. */
  function ZeroTrimmed(n: Numeral): Numeral {
    var f := TrimZeros(n.FractionDigits());
    n.(fraction := if f == [] then None else Some(f))
  }

  /** Printing what was read gives the zero-trimmed form of the text. */
  lemma RenderOfParse(n: Numeral)
    requires n.WellFormed() && n.Read().Ok?
    ensures Render(n.Read().value) == ZeroTrimmed(n).Text()
    ensures n.Read().value.raw != I128_MIN
  {
    var d := n.Read().value;
    var f := n.FractionDigits();
    FractionOfMagnitude(n);
    ReadAccepts(n);
    assert Unsigned(d) == n.Magnitude();
    assert n.negative ==> n.Magnitude() > 0 by {
      if n.negative && n.Magnitude() == 0 {
        ZeroMagnitude(n);
      }
    }
    PrintOfValue(n.whole);
    assert Canonical(d).whole == n.whole;
    assert Canonical(d).fraction == ZeroTrimmed(n).fraction;
  }

  lemma ZeroMagnitude(n: Numeral)
    requires n.WellFormed() && |n.FractionDigits()| <= 8 && n.Magnitude() == 0
    ensures Value(n.whole) == 0 && Value(n.FractionDigits()) == 0
  {
    var v, p := Value(n.FractionDigits()), Pow10(8 - |n.FractionDigits()|);
    assert v * p == 0;
    if v > 0 {
      PositiveProduct(v, p);
    }
  }

  lemma PositiveProduct(x: int, y: int)
    requires x > 0 && y > 0
    ensures x * y > 0
  {
  }

  /** Eight-place padding of the fraction recovers the fraction that was read. */
  lemma FractionOfMagnitude(n: Numeral)
    requires n.WellFormed() && |n.FractionDigits()| <= 8
    ensures n.Magnitude() / SCALE == Value(n.whole)
    ensures n.Magnitude() % SCALE == 0 <==> TrimZeros(n.FractionDigits()) == []
    ensures TrimZeros(Padded(n.Magnitude() % SCALE, 8)) == TrimZeros(n.FractionDigits())
  {
    var f := n.FractionDigits();
    FractionInUnits(f, 8);
    Pow10Values();
    SplitMagnitude(n.Magnitude(), Value(n.whole), Value(f) * Pow10(8 - |f|));
    TrimOfUnits(f, 8);
  }

  lemma SplitMagnitude(m: nat, whole: nat, units: nat)
    requires m == whole * SCALE + units && units < SCALE
    ensures m / SCALE == whole && m % SCALE == units
  {
  }

  // ----- Truncating multiplication -----

  lemma MulCommutes(a: Decimal, b: Decimal)
    ensures a.CheckedMul(b) == b.CheckedMul(a)
  {
    assert a.raw * b.raw == b.raw * a.raw;
  }

  /** The absolute value, except at the minimum, which has none. */
  lemma AbsExact(d: Decimal)
    ensures d.Abs().raw == if 0 <= d.raw then d.raw else if d.raw == I128_MIN then d.raw else 0 - d.raw
  {
  }

  /** For a non-negative quantity, a higher price never costs less, unless it overflows. */
  lemma MulMonotone(q: Decimal, low: Decimal, high: Decimal)
    requires q.raw >= 0 && 0 <= low.raw <= high.raw && q.CheckedMul(high).Some?
    ensures q.CheckedMul(low).Some?
    ensures 0 <= q.CheckedMul(low).value.raw <= q.CheckedMul(high).value.raw
  {
    ProductMonotone(q.raw, low.raw, high.raw);
  }

  lemma ProductMonotone(q: int, x: int, y: int)
    requires q >= 0 && 0 <= x <= y
    ensures 0 <= q * x <= q * y
  {
  }
}
