/** Days since 1970-01-01 to a proleptic Gregorian date, against the ordinary calendar. */
module Calendar {

  /******* The ordinary calendar *******/

  predicate IsLeap(year: int) { year % 400 == 0 || (year % 4 == 0 && year % 100 != 0) }

  function DaysInMonth(year: int, month: int): int {
    if month == 2 then (if IsLeap(year) then 29 else 28)
    else if month == 4 || month == 6 || month == 9 || month == 11 then 30
    else 31
  }

  predicate ValidDate(year: int, month: int, day: int) {
    1 <= month <= 12 && 1 <= day <= DaysInMonth(year, month)
  }

  function YearLength(year: int): int { if IsLeap(year) then 366 else 365 }

  /** Days from 1970-01-01 to January 1 of `year`, counted year by year. */
  function YearStart(year: int): int
    decreases if year < 1970 then 1970 - year else year - 1970
  {
    if year == 1970 then 0
    else if year > 1970 then YearStart(year - 1) + YearLength(year - 1)
    else YearStart(year + 1) - YearLength(year)
  }

  /** Days from January 1 to the first of `month`, counted month by month. */
  function MonthStart(year: int, month: int): int
    requires 1 <= month <= 13
  {
    if month == 1 then 0 else MonthStart(year, month - 1) + DaysInMonth(year, month - 1)
  }

  function DayNumber(year: int, month: int, day: int): int
    requires 1 <= month <= 12
  {
    YearStart(year) + MonthStart(year, month) + day - 1
  }

  /******* The conversion *******/

  /** Rust's integer division, which truncates toward zero. */
  function TruncDiv(a: int, b: int): int
    requires b > 0
  {
    if a >= 0 then a / b else -(-a / b)
  }

  function CivilDate(days: int): (int, int, int) {
    var z := days + 719_468;
    var era := TruncDiv(if z >= 0 then z else z - 146_096, 146_097);
    DateInEra(era, z - era * 146_097)
  }

  /** Day `doe` of the 400-year era `era`. */
  function DateInEra(era: int, doe: int): (int, int, int) {
    var yoe := TruncYear(doe);
    DateInYear(yoe + era * 400, TruncDay(doe, yoe))
  }

  /** The year of the era that holds day `doe`. */
  function TruncYear(doe: int): int {
    TruncDiv(doe - TruncDiv(doe, 1_460) + TruncDiv(doe, 36_524) - TruncDiv(doe, 146_096), 365)
  }

  /** The day within that year. */
  function TruncDay(doe: int, yoe: int): int { doe - (365 * yoe + TruncDiv(yoe, 4) - TruncDiv(yoe, 100)) }

  /** Day `doy` of the year that begins on March 1 of `y`. */
  function DateInYear(y: int, doy: int): (int, int, int) {
    var mp := TruncDiv(5 * doy + 2, 153);
    (y + (if mp >= 10 then 1 else 0),
     U32OrOne(mp + (if mp < 10 then 3 else -9)),
     U32OrOne(doy - TruncDiv(153 * mp + 2, 5) + 1))
  }

  /** `u32::try_from(n).unwrap_or(1)`. */
  function U32OrOne(n: int): int { if 0 <= n < 0x1_0000_0000 then n else 1 }

  /******* Closed forms *******/

  function LeapsBefore(year: int): int { (year - 1) / 4 - (year - 1) / 100 + (year - 1) / 400 }

  lemma LeapsBeforeStep(year: int)
    ensures LeapsBefore(year + 1) - LeapsBefore(year) == if IsLeap(year) then 1 else 0
  {
    QuotientStep(year, 4);
    QuotientStep(year, 100);
    QuotientStep(year, 400);
  }

  lemma QuotientStep(n: int, b: int)
    requires b > 1
    ensures n / b - (n - 1) / b == if n % b == 0 then 1 else 0
  {
    if n % b == 0 {
      DivIs(n - 1, b, n / b - 1, b - 1);
    } else {
      DivIs(n - 1, b, n / b, n % b - 1);
    }
  }

  lemma {:induction false} YearStartClosed(year: int)
    ensures YearStart(year) == 365 * (year - 1970) + LeapsBefore(year) - 477
    decreases if year < 1970 then 1970 - year else year - 1970
  {
    if year > 1970 {
      YearStartClosed(year - 1);
      LeapsBeforeStep(year - 1);
    } else if year < 1970 {
      YearStartClosed(year + 1);
      LeapsBeforeStep(year);
    }
  }

  lemma YearStartStep(year: int)
    ensures YearStart(year + 1) == YearStart(year) + YearLength(year)
  {
    YearStartClosed(year);
    YearStartClosed(year + 1);
    LeapsBeforeStep(year);
  }

  lemma MonthStartTable(year: int, month: int)
    requires 1 <= month <= 13
    ensures MonthStart(year, month) ==
      [0, 31, 59, 90, 120, 151, 181, 212, 243, 273, 304, 334, 365][month - 1]
      + (if month > 2 && IsLeap(year) then 1 else 0)
  {
    if month > 1 {
      MonthStartTable(year, month - 1);
    }
  }

  /** March-based years: the day number of March 1 of `era * 400 + yoe`. */
  lemma MarchFirst(era: int, yoe: int)
    requires 0 <= yoe < 400
    ensures YearStart(era * 400 + yoe) + MonthStart(era * 400 + yoe, 3)
         == era * 146_097 + 365 * yoe + yoe / 4 - yoe / 100 - 719_468
    ensures IsLeap(era * 400 + yoe) == IsLeap(yoe)
  {
    var y := era * 400 + yoe;
    YearStartClosed(y);
    MonthStartTable(y, 3);
    LeapsBeforeStep(y);
    assert y / 400 == era && y / 100 == era * 4 + yoe / 100 && y / 4 == era * 100 + yoe / 4;
    assert y % 400 == yoe && y % 100 == yoe % 100 && y % 4 == yoe % 4;
  }

  lemma MulAtLeast(b: int, k: int)
    requires b > 0 && k >= 1
    ensures b * k >= b
  {
  }

  lemma DivIs(a: int, b: int, q: int, r: int)
    requires 0 <= r < b && a == b * q + r
    ensures a / b == q && a % b == r
  {
    var k, m := a / b - q, a % b;
    assert b * (q + k) == b * q + b * k;
    assert b * k == r - m;
    if k >= 1 {
      MulAtLeast(b, k);
    } else if k <= -1 {
      MulAtLeast(b, -k);
    }
  }

  /** Day `s` of the four-year cycle `cycle` of a century of the era lies in year `t` of it. */
  ghost predicate InCycle(century: int, cycle: int, s: int, t: int) {
    && 0 <= century <= 3 && 0 <= cycle <= 24 && 0 <= t <= 3
    && 365 * t <= s <= 365 * t + (if t == 3 then 365 else 364)
    && (cycle == 24 && s == 1_460 ==> century == 3)
  }

  lemma SplitEra(doe: int) returns (century: int, cycle: int, s: int, t: int)
    requires 0 <= doe < 146_097
    ensures InCycle(century, cycle, s, t)
    ensures doe == 36_524 * century + 1_461 * cycle + s
  {
    century := if doe == 146_096 then 3 else doe / 36_524;
    var r := doe - 36_524 * century;
    cycle, s := r / 1_461, r % 1_461;
    t := if s == 1_460 then 3 else s / 365;
  }

  lemma YearFormula(doe: int, century: int, cycle: int, s: int, t: int)
    requires InCycle(century, cycle, s, t)
    requires doe == 36_524 * century + 1_461 * cycle + s
    ensures (doe - doe / 1_460 + doe / 36_524 - doe / 146_096) / 365 == 100 * century + 4 * cycle + t
  {
    var e := if 24 * century + cycle + s >= 1_460 then 1 else 0;
    DivIs(doe, 1_460, 25 * century + cycle + e, 24 * century + cycle + s - 1_460 * e);
    var last := if cycle == 24 && s == 1_460 then 1 else 0;
    DivIs(doe, 36_524, century + last, 1_461 * cycle + s - 36_524 * last);
    DivIs(doe, 146_096, last, doe - 146_096 * last);
    DivIs(36_500 * century + 1_460 * cycle + s - e, 365, 100 * century + 4 * cycle + t, s - e - 365 * t);
  }

  function YearOf(doe: int): int { (doe - doe / 1_460 + doe / 36_524 - doe / 146_096) / 365 }

  function DayOfYear(doe: int): int { doe - (365 * YearOf(doe) + YearOf(doe) / 4 - YearOf(doe) / 100) }

  /** The year-of-era formula finds the March-based year that holds day `doe` of the era. */
  lemma YearOfEra(doe: int)
    requires 0 <= doe < 146_097
    ensures 0 <= YearOf(doe) < 400
    ensures 0 <= DayOfYear(doe) < YearLength(YearOf(doe) + 1)
  {
    var century, cycle, s, t := SplitEra(doe);
    YearFormula(doe, century, cycle, s, t);
    var yoe := 100 * century + 4 * cycle + t;
    DivIs(yoe, 100, century, 4 * cycle + t);
    DivIs(yoe, 4, 25 * century + cycle, t);
    if s == 1_460 {
      assert (yoe + 1) % 4 == 0;
      if cycle < 24 {
        DivIs(yoe + 1, 100, century, 4 * cycle + 4);
      }
    }
  }

  /** Days from March 1 to the first of the month that follows it by `mp` months. */
  function FromMarch(mp: int): int
    requires 0 <= mp <= 12
  {
    [0, 31, 61, 92, 122, 153, 184, 214, 245, 275, 306, 337, 367][mp]
  }

  /** The month formula finds the month of a day counted from March 1. */
  lemma MonthFormula(doy: int)
    requires 0 <= doy <= 365
    ensures var mp := (5 * doy + 2) / 153;
      && 0 <= mp <= 11 && (153 * mp + 2) / 5 == FromMarch(mp)
      && FromMarch(mp) <= doy < FromMarch(mp + 1)
  {
  }

  lemma MonthsFromMarch(year: int, mp: int)
    requires 0 <= mp <= 11
    ensures mp < 10 ==> MonthStart(year, mp + 3) == MonthStart(year, 3) + FromMarch(mp)
    ensures mp < 10 ==> FromMarch(mp + 1) - FromMarch(mp) == DaysInMonth(year, mp + 3)
    ensures mp >= 10 ==> YearLength(year) + MonthStart(year + 1, mp - 9) == MonthStart(year, 3) + FromMarch(mp)
  {
    MonthStartTable(year, 3);
    if mp < 10 {
      MonthStartTable(year, mp + 3);
    } else {
      MonthStartTable(year + 1, mp - 9);
    }
  }

  lemma DateInYearIsCorrect(year: int, doy: int)
    requires 0 <= doy < YearLength(year + 1)
    ensures var (y, m, d) := DateInYear(year, doy);
      ValidDate(y, m, d) && DayNumber(y, m, d) == YearStart(year) + MonthStart(year, 3) + doy
  {
    MonthFormula(doy);
    MonthsFromMarch(year, (5 * doy + 2) / 153);
    YearStartStep(year);
  }

  lemma DateInEraParts(era: int, doe: int)
    requires 0 <= doe < 146_097
    ensures DateInEra(era, doe) == DateInYear(YearOf(doe) + era * 400, DayOfYear(doe))
  {
    YearDoesNotTruncate(doe);
    DayDoesNotTruncate(doe);
  }

  lemma YearDoesNotTruncate(doe: int)
    requires 0 <= doe < 146_097
    ensures TruncYear(doe) == YearOf(doe)
  {
    assert doe / 1_460 + doe / 146_096 <= doe;
  }

  lemma DayDoesNotTruncate(doe: int)
    requires 0 <= doe < 146_097
    ensures TruncDay(doe, YearOf(doe)) == DayOfYear(doe)
  {
    YearOfEra(doe);
  }

  lemma DateInEraIsCorrect(era: int, doe: int)
    requires 0 <= doe < 146_097
    ensures var (y, m, d) := DateInEra(era, doe);
      ValidDate(y, m, d) && DayNumber(y, m, d) == era * 146_097 + doe - 719_468
  {
    YearOfEra(doe);
    var yoe := YearOf(doe);
    DateInEraParts(era, doe);
    MarchFirst(era, yoe);
    LeapIsPeriodic(era, yoe + 1);
    assert era * 400 + (yoe + 1) == yoe + era * 400 + 1;
    DateInYearIsCorrect(yoe + era * 400, DayOfYear(doe));
  }

  lemma LeapIsPeriodic(era: int, year: int)
    ensures IsLeap(era * 400 + year) == IsLeap(year)
  {
    DivIs(era * 400 + year, 400, era + year / 400, year % 400);
    DivIs(era * 400 + year, 100, era * 4 + year / 100, year % 100);
    DivIs(era * 400 + year, 4, era * 100 + year / 4, year % 4);
  }

  lemma FloorEra(z: int)
    ensures TruncDiv(if z >= 0 then z else z - 146_096, 146_097) == z / 146_097
  {
    if z < 0 {
      DivIs(146_096 - z, 146_097, -(z / 146_097), 146_096 - z % 146_097);
    }
  }

  /** Every day count converts to a real calendar date, and that date is the one with this
      day number. */
  lemma CivilDateIsCorrect(days: int)
    ensures var (y, m, d) := CivilDate(days);
      ValidDate(y, m, d) && DayNumber(y, m, d) == days
  {
    var z := days + 719_468;
    CivilDateInEra(days);
    DateInEraIsCorrect(z / 146_097, z % 146_097);
  }

  lemma CivilDateInEra(days: int)
    ensures var z := days + 719_468; CivilDate(days) == DateInEra(z / 146_097, z % 146_097)
  {
    FloorEra(days + 719_468);
  }

  /******* Order and inverse *******/

  predicate DateLess(a: (int, int, int), b: (int, int, int)) {
    a.0 < b.0 || (a.0 == b.0 && (a.1 < b.1 || (a.1 == b.1 && a.2 < b.2)))
  }

  lemma {:induction false} YearStartGrows(a: int, b: int)
    requires a <= b
    ensures YearStart(a) + 365 * (b - a) <= YearStart(b)
    decreases b - a
  {
    if a < b {
      YearStartGrows(a, b - 1);
      YearStartStep(b - 1);
    }
  }

  lemma {:induction false} MonthStartGrows(year: int, a: int, b: int)
    requires 1 <= a < b <= 13
    ensures MonthStart(year, a) + DaysInMonth(year, a) <= MonthStart(year, b)
    decreases b - a
  {
    if a + 1 < b {
      MonthStartGrows(year, a, b - 1);
    }
  }

  /** Calendar order is day-number order. */
  lemma DayNumberIsMonotone(a: (int, int, int), b: (int, int, int))
    requires ValidDate(a.0, a.1, a.2) && ValidDate(b.0, b.1, b.2) && DateLess(a, b)
    ensures DayNumber(a.0, a.1, a.2) < DayNumber(b.0, b.1, b.2)
  {
    if a.0 < b.0 {
      MonthStartGrows(a.0, a.1, 13);
      MonthStartTable(a.0, 13);
      MonthStartTable(b.0, b.1);
      YearStartStep(a.0);
      YearStartGrows(a.0 + 1, b.0);
    } else if a.1 < b.1 {
      MonthStartGrows(a.0, a.1, b.1);
    }
  }

  /** The conversion undoes the day count: it is a bijection between day counts and dates. */
  lemma CivilDateInverts(year: int, month: int, day: int)
    requires ValidDate(year, month, day)
    ensures CivilDate(DayNumber(year, month, day)) == (year, month, day)
  {
    var a, b := (year, month, day), CivilDate(DayNumber(year, month, day));
    CivilDateIsCorrect(DayNumber(year, month, day));
    if DateLess(a, b) {
      DayNumberIsMonotone(a, b);
    } else if DateLess(b, a) {
      DayNumberIsMonotone(b, a);
    }
  }

  /** The date after a date. */
  function NextDay(date: (int, int, int)): (int, int, int) {
    if date.2 < DaysInMonth(date.0, date.1) then (date.0, date.1, date.2 + 1)
    else if date.1 < 12 then (date.0, date.1 + 1, 1)
    else (date.0 + 1, 1, 1)
  }

  /** Consecutive day counts are consecutive dates: the calendar has no gap and no repeat. */
  lemma CivilDateSteps(days: int)
    ensures CivilDate(days + 1) == NextDay(CivilDate(days))
  {
    var (y, m, d) := CivilDate(days);
    CivilDateIsCorrect(days);
    NextDayCounts(y, m, d);
    var (ny, nm, nd) := NextDay((y, m, d));
    CivilDateInverts(ny, nm, nd);
  }

  lemma NextDayCounts(y: int, m: int, d: int)
    requires ValidDate(y, m, d)
    ensures var (ny, nm, nd) := NextDay((y, m, d));
      ValidDate(ny, nm, nd) && DayNumber(ny, nm, nd) == DayNumber(y, m, d) + 1
  {
    MonthStartTable(y, 13);
    YearStartStep(y);
  }
}
