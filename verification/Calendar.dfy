/** Proleptic Gregorian dates and their day numbers: the closed forms of utc_timestamp.rs. */
module Calendar {
  import opened Prelude

  datatype Date = Date(year: int, month: int, day: int)

  predicate IsLeapYear(y: int) {
    y % 4 == 0 && (y % 100 != 0 || y % 400 == 0)
  }

  function LastDayOfMonth(y: int, m: int): int
    requires 1 <= m <= 12
  {
    if m == 2 && IsLeapYear(y) then 29
    else [31, 28, 31, 30, 31, 30, 31, 31, 30, 31, 30, 31][m - 1]
  }

  predicate ValidDate(t: Date) {
    1 <= t.month <= 12 && 1 <= t.day <= LastDayOfMonth(t.year, t.month)
  }

  function DaysFromCivil(t: Date): int
    requires ValidDate(t)
  {
    var y := if t.month <= 2 then t.year - 1 else t.year;
    var era := TruncDiv(if y >= 0 then y else y - 399, 400);
    var yoe := y - era * 400;
    var mp := if t.month > 2 then t.month - 3 else t.month + 9;
    var doy := (153 * mp + 2) / 5 + t.day - 1;
    var doe := yoe * 365 + yoe / 4 - yoe / 100 + doy;
    era * 146097 + doe - 719468
  }

  function CivilFromDays(days: int): Date {
    var z := days + 719468;
    var era := TruncDiv(if z >= 0 then z else z - 146096, 146097);
    CivilInEra(era, z - era * 146097)
  }

  /** The rest of civil_from_days: the date of day-of-era `doe` of era `era`. */
  function CivilInEra(era: int, doe: int): Date {
    var yoe := YearOfEra(doe);
    var doy := doe - (365 * yoe + yoe / 4 - yoe / 100);
    CivilInYear(yoe + era * 400, doy)
  }

  function YearOfEra(doe: int): int {
    (doe - doe / 1460 + doe / 36524 - doe / 146096) / 365
  }

  /** Day `doy` of the March-based year `y`. */
  function CivilInYear(y: int, doy: int): Date {
    var mp := (5 * doy + 2) / 153;
    var d := doy - (153 * mp + 2) / 5 + 1;
    var m := if mp < 10 then mp + 3 else mp - 9;
    Date(if m <= 2 then y + 1 else y, m, d)
  }

  // ----- The calendar itself, one day at a time -----

  /** The day after `t`, read off the month lengths alone. */
  function NextDay(t: Date): (r: Date)
    requires ValidDate(t)
    ensures ValidDate(r)
  {
    if t.day < LastDayOfMonth(t.year, t.month) then Date(t.year, t.month, t.day + 1)
    else if t.month < 12 then Date(t.year, t.month + 1, 1)
    else Date(t.year + 1, 1, 1)
  }

  /** The day before `t`. */
  function PreviousDay(t: Date): (r: Date)
    requires ValidDate(t)
    ensures ValidDate(r) && NextDay(r) == t
  {
    if t.day > 1 then Date(t.year, t.month, t.day - 1)
    else if t.month > 1 then Date(t.year, t.month - 1, LastDayOfMonth(t.year, t.month - 1))
    else Date(t.year - 1, 12, 31)
  }

  const EPOCH := Date(1970, 1, 1)

  /** The date reached from the epoch by turning `n` calendar pages, forward or back. */
  function CountedDate(n: int): (r: Date)
    ensures ValidDate(r)
    decreases if n < 0 then -n else n
  {
    if n == 0 then EPOCH
    else if n > 0 then NextDay(CountedDate(n - 1))
    else PreviousDay(CountedDate(n + 1))
  }

  ghost predicate Earlier(s: Date, t: Date) {
    s.year < t.year
    || (s.year == t.year && (s.month < t.month || (s.month == t.month && s.day < t.day)))
  }

  // ----- Arithmetic of the 400-year era -----

  /** Days before year-of-era `yoe`, years starting in March. */
  function YearStart(yoe: int): int { 365 * yoe + yoe / 4 - yoe / 100 }

  /** Days before month `mp`, counted from March. */
  function MonthStart(mp: int): int { (153 * mp + 2) / 5 }

  lemma EraIsFloor(x: int, k: int)
    requires k == 400 || k == 146097
    ensures TruncDiv(if x >= 0 then x else x - (k - 1), k) == x / k
  {
  }

  /** A March-based year of era splits into centuries, leap cycles and years. */
  lemma YearStartSplit(a: int, b: int, c: int)
    requires 0 <= a <= 3 && 0 <= b <= 24 && 0 <= c <= 3
    ensures YearStart(100 * a + 4 * b + c) == 36524 * a + 1461 * b + 365 * c
  {
    assert (100 * a + 4 * b + c) / 4 == 25 * a + b;
    assert (100 * a + 4 * b + c) / 100 == a;
  }

  /** Whether the March-based year 100a+4b+c of an era ends with 29 February. */
  predicate EndsLeap(a: int, b: int, c: int) { c == 3 && (b != 24 || a == 3) }

  lemma ModShift4(k: int, w: int)
    ensures (4 * k + w) % 4 == w % 4
  {
    assert (4 * k + w) / 4 == k + w / 4;
  }

  lemma ModShift100(k: int, w: int)
    ensures (100 * k + w) % 100 == w % 100
  {
    assert (100 * k + w) / 100 == k + w / 100;
  }

  lemma ModShift400(k: int, w: int)
    ensures (400 * k + w) % 400 == w % 400
  {
    assert (400 * k + w) / 400 == k + w / 400;
  }

  lemma LeapRepeats(era: int, w: int)
    ensures IsLeapYear(era * 400 + w) <==> IsLeapYear(w)
  {
    ModShift4(100 * era, w);
    ModShift100(4 * era, w);
    ModShift400(era, w);
  }

  lemma EndsLeapMeaning(era: int, a: int, b: int, c: int)
    requires 0 <= a <= 3 && 0 <= b <= 24 && 0 <= c <= 3
    ensures EndsLeap(a, b, c) <==> IsLeapYear(era * 400 + (100 * a + 4 * b + c + 1))
  {
    var w := 100 * a + 4 * b + c + 1;
    LeapRepeats(era, w);
    var v := 4 * b + c + 1;
    assert w % 4 == (c + 1) % 4;
    assert 1 <= v <= 100;
    assert w % 100 == if v == 100 then 0 else v;
    assert w % 400 == if a == 3 && v == 100 then 0 else w;
  }

  /** The closed form for the year of era inverts YearStart on every day of every year. */
  lemma YearOfEraInverts(a: int, b: int, c: int, doy: int)
    requires 0 <= a <= 3 && 0 <= b <= 24 && 0 <= c <= 3
    requires 0 <= doy <= 364 || (doy == 365 && EndsLeap(a, b, c))
    ensures var doe := 36524 * a + 1461 * b + 365 * c + doy;
            0 <= doe <= 146096
            && YearOfEra(doe) == 100 * a + 4 * b + c
  {
    var doe := 36524 * a + 1461 * b + 365 * c + doy;
    var e1 := if 24 * a + b + 365 * c + doy >= 1460 then 1 else 0;
    assert doe / 1460 == 25 * a + b + e1;
    var last := if doe == 146096 then 1 else 0;
    assert doe / 36524 == a + last;
    assert doe / 146096 == last;
    assert 0 <= doy - e1 <= 364;
  }

  /** Every day of an era lies in exactly one March-based year. */
  lemma SplitDayOfEra(doe: int) returns (a: int, b: int, c: int, doy: int)
    requires 0 <= doe <= 146096
    ensures 0 <= a <= 3 && 0 <= b <= 24 && 0 <= c <= 3
    ensures 0 <= doy <= 364 || (doy == 365 && EndsLeap(a, b, c))
    ensures doe == 36524 * a + 1461 * b + 365 * c + doy
  {
    a := if doe == 146096 then 3 else doe / 36524;
    var r := doe - 36524 * a;
    b := r / 1461;
    var r' := r - 1461 * b;
    c := if r' == 1460 then 3 else r' / 365;
    doy := r' - 365 * c;
  }

  /** The month closed form inverts MonthStart, and month lengths come out right. */
  lemma MonthOfYear(doy: int)
    requires 0 <= doy <= 365
    ensures var mp := (5 * doy + 2) / 153;
            0 <= mp <= 11 && MonthStart(mp) <= doy
            && (mp < 11 ==> doy < MonthStart(mp + 1))
  {
  }

  // ----- The closed forms are mutually inverse -----

  /** The year counted from March that `t` belongs to. */
  function MarchYear(t: Date): int { if t.month <= 2 then t.year - 1 else t.year }

  function MarchMonth(t: Date): int { if t.month > 2 then t.month - 3 else t.month + 9 }

  function DayOfMarchYear(t: Date): int { MonthStart(MarchMonth(t)) + t.day - 1 }

  /** A day number written in eras, centuries, leap cycles, years and days. */
  datatype Split = Split(era: int, a: int, b: int, c: int, doy: int) {
    ghost predicate Valid() {
      0 <= a <= 3 && 0 <= b <= 24 && 0 <= c <= 3
      && (0 <= doy <= 364 || (doy == 365 && EndsLeap(a, b, c)))
    }

    function DayOfEra(): int { 36524 * a + 1461 * b + 365 * c + doy }

    function Days(): int { era * 146097 + DayOfEra() - 719468 }

    function Year(): int { era * 400 + (100 * a + 4 * b + c) }
  }

  /** The days of the March-based year `y` are exactly 0..364, and 365 when `y + 1` is leap. */
  lemma DayOfMarchYearRange(t: Date)
    requires ValidDate(t)
    ensures 0 <= DayOfMarchYear(t) <= 364
            || (DayOfMarchYear(t) == 365 && IsLeapYear(MarchYear(t) + 1))
  {
  }

  lemma CivilInYearIsValid(y: int, doy: int)
    requires 0 <= doy <= 364 || (doy == 365 && IsLeapYear(y + 1))
    ensures var t := CivilInYear(y, doy);
            ValidDate(t) && MarchYear(t) == y && DayOfMarchYear(t) == doy
  {
    MonthOfYear(doy);
  }

  lemma CivilInYearInverts(t: Date)
    requires ValidDate(t)
    ensures CivilInYear(MarchYear(t), DayOfMarchYear(t)) == t
  {
    DayOfMarchYearRange(t);
    MonthOfYear(DayOfMarchYear(t));
    assert (5 * DayOfMarchYear(t) + 2) / 153 == MarchMonth(t);
  }

  lemma SplitYear(y: int) returns (era: int, a: int, b: int, c: int)
    ensures era == y / 400
    ensures 0 <= a <= 3 && 0 <= b <= 24 && 0 <= c <= 3
    ensures y == era * 400 + (100 * a + 4 * b + c)
  {
    era := y / 400;
    var yoe := y - era * 400;
    a := yoe / 100;
    b := (yoe - 100 * a) / 4;
    c := yoe - 100 * a - 4 * b;
  }

  /** The closed form, with the era rounded down. */
  lemma DaysOfDate(t: Date)
    requires ValidDate(t)
    ensures var era := MarchYear(t) / 400;
            DaysFromCivil(t) == era * 146097 + YearStart(MarchYear(t) - era * 400) + DayOfMarchYear(t) - 719468
  {
    hide TruncDiv, LastDayOfMonth;
    EraIsFloor(MarchYear(t), 400);
  }

  lemma SplitDate(t: Date) returns (s: Split)
    requires ValidDate(t)
    ensures s.Valid() && s.Year() == MarchYear(t) && s.doy == DayOfMarchYear(t)
    ensures DaysFromCivil(t) == s.Days()
  {
    hide ValidDate, EndsLeap, IsLeapYear, MarchYear, DayOfMarchYear, DaysFromCivil, YearStart;
    var era, a, b, c := SplitYear(MarchYear(t));
    s := Split(era, a, b, c, DayOfMarchYear(t));
    DayOfMarchYearRange(t);
    EndsLeapMeaning(era, a, b, c);
    DaysOfDate(t);
    YearStartSplit(a, b, c);
  }

  /** What the inverse closed form computes once the day number is split. */
  lemma CivilOfSplit(s: Split)
    requires s.Valid()
    ensures CivilFromDays(s.Days()) == CivilInYear(s.Year(), s.doy)
  {
    hide CivilFromDays, CivilInEra, CivilInYear;
    var doe := s.DayOfEra();
    assert 0 <= doe <= 146096;
    EraOfDays(s.era, doe);
    CivilInEraOfSplit(s);
  }

  lemma EraOfDays(era: int, doe: int)
    requires 0 <= doe <= 146096
    ensures CivilFromDays(era * 146097 + doe - 719468) == CivilInEra(era, doe)
  {
    hide CivilInEra;
    var z := era * 146097 + doe;
    EraIsFloor(z, 146097);
    assert z / 146097 == era;
  }

  lemma CivilInEraOfSplit(s: Split)
    requires s.Valid()
    ensures CivilInEra(s.era, s.DayOfEra()) == CivilInYear(s.Year(), s.doy)
  {
    hide CivilInYear;
    YearOfEraInverts(s.a, s.b, s.c, s.doy);
    YearStartSplit(s.a, s.b, s.c);
    assert s.DayOfEra() - YearStart(YearOfEra(s.DayOfEra())) == s.doy;
  }

  /** Every integer is the day number of the valid date that CivilFromDays returns for it. */
  lemma CivilFromDaysIsRightInverse(z: int)
    ensures ValidDate(CivilFromDays(z))
    ensures DaysFromCivil(CivilFromDays(z)) == z
  {
    var s := SplitDays(z);
    CivilOfSplit(s);
    EndsLeapMeaning(s.era, s.a, s.b, s.c);
    CivilInYearIsValid(s.Year(), s.doy);
    var s' := SplitDate(CivilFromDays(z));
    SameYearSameSplit(s, s');
  }

  lemma SplitDays(z: int) returns (s: Split)
    ensures s.Valid() && s.Days() == z
  {
    var n := z + 719468;
    var era := n / 146097;
    var a, b, c, doy := SplitDayOfEra(n - era * 146097);
    s := Split(era, a, b, c, doy);
  }

  lemma SameYearSameSplit(s: Split, s': Split)
    requires s.Valid() && s'.Valid() && s.Year() == s'.Year()
    ensures s.era == s'.era && s.a == s'.a && s.b == s'.b && s.c == s'.c
  {
  }

  /** Every valid date, in any year, comes back from its day number. */
  lemma CivilFromDaysIsLeftInverse(t: Date)
    requires ValidDate(t)
    ensures CivilFromDays(DaysFromCivil(t)) == t
  {
    var s := SplitDate(t);
    CivilOfSplit(s);
    CivilInYearInverts(t);
  }

  // ----- The closed forms agree with counting days -----

  /** Later dates have larger day numbers, and only later dates do. */
  lemma DayNumbersOrderDates(s: Date, t: Date)
    requires ValidDate(s) && ValidDate(t)
    ensures Earlier(s, t) <==> DaysFromCivil(s) < DaysFromCivil(t)
  {
    if Earlier(s, t) {
      EarlierIsSmaller(s, t);
    } else if s != t {
      EarlierIsSmaller(t, s);
    }
  }

  lemma EarlierIsSmaller(s: Date, t: Date)
    requires ValidDate(s) && ValidDate(t) && Earlier(s, t)
    ensures DaysFromCivil(s) < DaysFromCivil(t)
  {
    var p := SplitDate(s);
    var q := SplitDate(t);
    EarlierInYear(s, t);
    if p.Year() == q.Year() {
      SameYearSameSplit(p, q);
    } else {
      EarlierYears(p, q);
    }
  }

  lemma EarlierInYear(s: Date, t: Date)
    requires ValidDate(s) && ValidDate(t) && Earlier(s, t)
    ensures MarchYear(s) <= MarchYear(t)
    ensures MarchYear(s) == MarchYear(t) ==> DayOfMarchYear(s) < DayOfMarchYear(t)
  {
    if s.year == t.year && s.month != t.month && (s.month > 2 || t.month <= 2) {
      assert s.day <= LastDayOfMonth(s.year, s.month);
      assert MonthStart(MarchMonth(s)) + s.day <= MonthStart(MarchMonth(t));
    }
  }

  lemma EarlierYears(p: Split, q: Split)
    requires p.Valid() && q.Valid() && p.Year() < q.Year()
    ensures p.Days() < q.Days()
  {
    assert p.era <= q.era;
    if p.era == q.era {
      assert p.a <= q.a;
      if p.a == q.a {
        assert p.b <= q.b;
      }
    }
  }

  /** Turning one calendar page adds exactly one to the day number. */
  lemma NextDayAddsOne(t: Date)
    requires ValidDate(t)
    ensures DaysFromCivil(NextDay(t)) == DaysFromCivil(t) + 1
  {
    hide DaysFromCivil, NextDay, MarchYear, DayOfMarchYear, IsLeapYear;
    var p := SplitDate(t);
    var q := SplitDate(NextDay(t));
    EndsLeapMeaning(p.era, p.a, p.b, p.c);
    NextDayInYear(t);
    if MarchYear(t) == MarchYear(NextDay(t)) {
      SameYearSameSplit(p, q);
    } else {
      NextYearStarts(p, q);
    }
  }

  /** The page after day `doy` is day `doy + 1`, or day 0 once the last of February is past. */
  lemma NextDayInYear(t: Date)
    requires ValidDate(t)
    ensures var n := NextDay(t);
            if MarchYear(n) == MarchYear(t) then DayOfMarchYear(n) == DayOfMarchYear(t) + 1
            else MarchYear(n) == MarchYear(t) + 1 && DayOfMarchYear(n) == 0
                 && DayOfMarchYear(t) == if IsLeapYear(t.year) then 365 else 364
    ensures MarchYear(NextDay(t)) != MarchYear(t) ==> t.year == MarchYear(t) + 1
  {
  }

  lemma NextYearStarts(p: Split, q: Split)
    requires p.Valid() && q.Valid() && q.Year() == p.Year() + 1 && q.doy == 0
    requires p.doy == if EndsLeap(p.a, p.b, p.c) then 365 else 364
    ensures q.Days() == p.Days() + 1
  {
    if p.c < 3 {
      SameYearSameSplit(p.(c := p.c + 1, doy := 0), q);
    } else if p.b < 24 {
      SameYearSameSplit(p.(b := p.b + 1, c := 0, doy := 0), q);
    } else if p.a < 3 {
      SameYearSameSplit(p.(a := p.a + 1, b := 0, c := 0, doy := 0), q);
    } else {
      SameYearSameSplit(Split(p.era + 1, 0, 0, 0, 0), q);
    }
  }

  lemma EpochIsDayZero()
    ensures DaysFromCivil(EPOCH) == 0
  {
  }

  /** The date that `n` pages lead to has day number `n`. */
  lemma {:induction false} CountedDays(n: int)
    ensures DaysFromCivil(CountedDate(n)) == n
    decreases if n < 0 then -n else n
  {
    hide DaysFromCivil, NextDay, PreviousDay;
    if n > 0 {
      CountedDays(n - 1);
      NextDayAddsOne(CountedDate(n - 1));
    } else if n < 0 {
      CountedDays(n + 1);
      NextDayAddsOne(CountedDate(n));
    } else {
      EpochIsDayZero();
    }
  }

  /** The closed forms agree with counting pages from the epoch. */
  lemma CivilFromDaysCounts(n: int)
    ensures DaysFromCivil(CountedDate(n)) == n
    ensures CivilFromDays(n) == CountedDate(n)
  {
    hide DaysFromCivil, CivilFromDays, CountedDate;
    CountedDays(n);
    CivilFromDaysIsLeftInverse(CountedDate(n));
  }
}
