/** UTC timestamps: formatting from Unix seconds, the validator, and why comparing them as
    strings compares them in time. */
module Timestamps {
  import opened Calendar
  import opened Ordering
  import opened Wrappers

  /******* Validator *******/

  predicate IsDigit(c: char) { '0' <= c <= '9' }

  function DigitValue(c: char): nat
    requires IsDigit(c)
  {
    c as int - '0' as int
  }

  /** The fold of `digits`: stops at the first byte that is not a digit. */
  function FoldDigits(s: string, value: nat): Option<nat> {
    if s == [] then Some(value)
    else if IsDigit(s[0]) then FoldDigits(s[1..], value * 10 + DigitValue(s[0]))
    else None
  }

  function Digits(s: string, start: nat, length: nat): Option<nat> {
    if start + length > |s| then None else FoldDigits(s[start..start + length], 0)
  }

  const SEPARATORS: map<int, char> := map[4 := '-', 7 := '-', 10 := 'T', 13 := ':', 16 := ':', 19 := 'Z']

  predicate HasLayout(s: string) {
    && |s| == 20
    && (forall i | i in SEPARATORS :: 0 <= i < 20 && s[i] == SEPARATORS[i])
    && (forall i | 0 <= i < 20 :: i in SEPARATORS || IsDigit(s[i]))
  }

  predicate IsUtcTimestamp(s: string) {
    HasLayout(s) &&
    match (Digits(s, 0, 4), Digits(s, 5, 2), Digits(s, 8, 2), Digits(s, 11, 2), Digits(s, 14, 2), Digits(s, 17, 2))
    case (Some(y), Some(m), Some(d), Some(h), Some(min), Some(sec)) =>
      y >= 1970 && 1 <= m <= 12 && d >= 1 && d <= DaysInMonth(y, m) && h <= 23 && min <= 59 && sec <= 59
    case _ => false
  }

  /******* Formatting *******/

  function DigitChar(n: nat): (c: char)
    requires n < 10
    ensures IsDigit(c) && DigitValue(c) == n
  {
    ('0' as int + n) as char
  }

  function Decimal(n: nat): string {
    if n < 10 then [DigitChar(n)] else Decimal(n / 10) + [DigitChar(n % 10)]
  }

  lemma {:induction false} FoldAppend(s: string, c: char, value: nat)
    requires IsDigit(c) && FoldDigits(s, value).Some?
    ensures FoldDigits(s + [c], value) == Some(FoldDigits(s, value).value * 10 + DigitValue(c))
    decreases |s|
  {
    if s == [] {
      assert s + [c] == [c] && [c][1..] == [];
      assert FoldDigits([], value * 10 + DigitValue(c)) == Some(value * 10 + DigitValue(c));
    } else {
      assert (s + [c])[0] == s[0] && (s + [c])[1..] == s[1..] + [c];
      FoldAppend(s[1..], c, value * 10 + DigitValue(s[0]));
    }
  }

  lemma {:induction false} DecimalReadsBack(n: nat)
    ensures FoldDigits(Decimal(n), 0) == Some(n)
    ensures Decimal(n) != [] && forall i | 0 <= i < |Decimal(n)| :: IsDigit(Decimal(n)[i])
  {
    if n < 10 {
      assert Decimal(n)[1..] == [];
      assert FoldDigits([], n) == Some(n);
    } else {
      DecimalReadsBack(n / 10);
      FoldAppend(Decimal(n / 10), DigitChar(n % 10), 0);
    }
  }

  function Zeros(n: nat): string { seq(n, _ => '0') }

  /** `{n:0width}`. */
  function Padded(n: nat, width: nat): string {
    var s := Decimal(n);
    if |s| < width then Zeros(width - |s|) + s else s
  }

  function Render(y: nat, m: nat, d: nat, h: nat, min: nat, sec: nat): string {
    Padded(y, 4) + "-" + Padded(m, 2) + "-" + Padded(d, 2) + "T" +
    Padded(h, 2) + ":" + Padded(min, 2) + ":" + Padded(sec, 2) + "Z"
  }

  /** The year, month and day of a moment, as numbers to print. */
  function DateOf(seconds: nat): (date: (nat, nat, nat))
    ensures date == CivilDate(seconds / 86_400) && ValidDate(date.0, date.1, date.2) && date.0 >= 1970
  {
    CivilDateIsCorrect(seconds / 86_400);
    var (y, m, d) := CivilDate(seconds / 86_400);
    YearIsNotBeforeEpoch(y, m, d);
    (y, m, d)
  }

  lemma YearIsNotBeforeEpoch(y: int, m: int, d: int)
    requires ValidDate(y, m, d) && DayNumber(y, m, d) >= 0
    ensures y >= 1970
  {
    if y < 1970 {
      DayNumberIsMonotone((y, m, d), (1970, 1, 1));
    }
  }

  /** `format_unix_timestamp`: the error is `None`. */
  function FormatUnixTimestamp(seconds: nat): Option<string> {
    var (y, m, d) := DateOf(seconds);
    var daySeconds := seconds % 86_400;
    var s := Render(y, m, d, daySeconds / 3_600, daySeconds / 60 % 60, daySeconds % 60);
    if IsUtcTimestamp(s) then Some(s) else None
  }

  /** The moment a valid timestamp names, by the ordinary calendar. */
  function Instant(s: string): int
    requires IsUtcTimestamp(s)
  {
    var y, m, d := Digits(s, 0, 4).value, Digits(s, 5, 2).value, Digits(s, 8, 2).value;
    var h, min, sec := Digits(s, 11, 2).value, Digits(s, 14, 2).value, Digits(s, 17, 2).value;
    DayNumber(y, m, d) * 86_400 + h * 3_600 + min * 60 + sec
  }

  /******* Fixed-width fields *******/

  predicate DigitsAt(s: string, i: nat, n: nat) {
    i + n <= |s| && forall k | i <= k < i + n :: IsDigit(s[k])
  }

  function Two(s: string, i: nat): nat
    requires DigitsAt(s, i, 2)
  {
    10 * DigitValue(s[i]) + DigitValue(s[i + 1])
  }

  function Four(s: string, i: nat): nat
    requires DigitsAt(s, i, 4)
  {
    100 * Two(s, i) + Two(s, i + 2)
  }

  lemma DigitsAreTwo(s: string, i: nat)
    requires DigitsAt(s, i, 2)
    ensures Digits(s, i, 2) == Some(Two(s, i))
  {
    var a, b := s[i], s[i + 1];
    assert s[i..i + 2] == [a, b] && [a, b][1..] == [b] && [b][1..] == [];
    assert FoldDigits([a, b], 0) == FoldDigits([b], DigitValue(a));
    assert FoldDigits([b], DigitValue(a)) == FoldDigits([], DigitValue(a) * 10 + DigitValue(b));
  }

  lemma DigitsAreFour(s: string, i: nat)
    requires DigitsAt(s, i, 4)
    ensures Digits(s, i, 4) == Some(Four(s, i))
  {
    var a, b, c, d := s[i], s[i + 1], s[i + 2], s[i + 3];
    assert s[i..i + 4] == [a, b, c, d];
    assert [a, b, c, d][1..] == [b, c, d] && [b, c, d][1..] == [c, d] && [c, d][1..] == [d] && [d][1..] == [];
    var x := DigitValue(a) * 10 + DigitValue(b);
    var y := x * 10 + DigitValue(c);
    assert FoldDigits([a, b, c, d], 0) == FoldDigits([b, c, d], DigitValue(a));
    assert FoldDigits([b, c, d], DigitValue(a)) == FoldDigits([c, d], x);
    assert FoldDigits([c, d], x) == FoldDigits([d], y);
    assert FoldDigits([d], y) == FoldDigits([], y * 10 + DigitValue(d));
  }

  lemma Fields(s: string)
    requires HasLayout(s)
    ensures DigitsAt(s, 0, 4) && DigitsAt(s, 5, 2) && DigitsAt(s, 8, 2)
    ensures DigitsAt(s, 11, 2) && DigitsAt(s, 14, 2) && DigitsAt(s, 17, 2)
    ensures Digits(s, 0, 4) == Some(Four(s, 0))
    ensures Digits(s, 5, 2) == Some(Two(s, 5)) && Digits(s, 8, 2) == Some(Two(s, 8))
    ensures Digits(s, 11, 2) == Some(Two(s, 11)) && Digits(s, 14, 2) == Some(Two(s, 14))
    ensures Digits(s, 17, 2) == Some(Two(s, 17))
  {
    DigitsAreFour(s, 0);
    DigitsAreTwo(s, 5);
    DigitsAreTwo(s, 8);
    DigitsAreTwo(s, 11);
    DigitsAreTwo(s, 14);
    DigitsAreTwo(s, 17);
  }

  /******* Round trip *******/

  lemma PaddedTwo(n: nat)
    requires n < 100
    ensures Padded(n, 2) == [DigitChar(n / 10), DigitChar(n % 10)]
  {
    if n >= 10 {
      assert Decimal(n) == Decimal(n / 10) + [DigitChar(n % 10)];
    }
  }

  lemma PaddedFour(n: nat)
    requires 1000 <= n < 10000
    ensures Padded(n, 4) == [DigitChar(n / 1000), DigitChar(n / 100 % 10), DigitChar(n / 10 % 10), DigitChar(n % 10)]
  {
    assert Decimal(n) == Decimal(n / 10) + [DigitChar(n % 10)];
    assert Decimal(n / 10) == Decimal(n / 10 / 10) + [DigitChar(n / 10 % 10)];
    assert n / 10 / 10 == n / 100;
    assert Decimal(n / 100) == Decimal(n / 100 / 10) + [DigitChar(n / 100 % 10)];
    assert n / 100 / 10 == n / 1000;
  }

  lemma LongYear(n: nat)
    requires n >= 10000
    ensures |Padded(n, 4)| >= 5
  {
    var a, b, c := n / 10, n / 10 / 10, n / 10 / 10 / 10;
    assert a >= 1000 && b >= 100 && c >= 10;
    OneMoreDigit(c);
    OneMoreDigit(b);
    OneMoreDigit(a);
    OneMoreDigit(n);
  }

  lemma OneMoreDigit(n: nat)
    requires n >= 10
    ensures |Decimal(n)| == |Decimal(n / 10)| + 1 && |Decimal(n / 10)| >= 1
  {
    assert Decimal(n) == Decimal(n / 10) + [DigitChar(n % 10)];
  }

  function DateText(y: nat, m: nat, d: nat): string
    requires y <= 9999 && m < 100 && d < 100
  {
    [DigitChar(y / 1000), DigitChar(y / 100 % 10), DigitChar(y / 10 % 10), DigitChar(y % 10), '-',
     DigitChar(m / 10), DigitChar(m % 10), '-', DigitChar(d / 10), DigitChar(d % 10), 'T']
  }

  function ClockText(h: nat, min: nat, sec: nat): string
    requires h < 100 && min < 100 && sec < 100
  {
    [DigitChar(h / 10), DigitChar(h % 10), ':', DigitChar(min / 10), DigitChar(min % 10), ':',
     DigitChar(sec / 10), DigitChar(sec % 10), 'Z']
  }

  lemma RenderedText(y: nat, m: nat, d: nat, h: nat, min: nat, sec: nat)
    requires 1000 <= y <= 9999 && m < 100 && d < 100 && h < 100 && min < 100 && sec < 100
    ensures Render(y, m, d, h, min, sec) == DateText(y, m, d) + ClockText(h, min, sec)
  {
    DateRenders(y, m, d);
    ClockRenders(h, min, sec);
    SevenParts(DateText(y, m, d), Padded(h, 2), ":", Padded(min, 2), ":", Padded(sec, 2), "Z");
  }

  lemma DateRenders(y: nat, m: nat, d: nat)
    requires 1000 <= y <= 9999 && m < 100 && d < 100
    ensures Padded(y, 4) + "-" + Padded(m, 2) + "-" + Padded(d, 2) + "T" == DateText(y, m, d)
  {
    PaddedFour(y);
    PaddedTwo(m);
    PaddedTwo(d);
    ElevenChars(Padded(y, 4), Padded(m, 2), Padded(d, 2));
  }

  lemma ElevenChars(y: string, m: string, d: string)
    requires |y| == 4 && |m| == 2 && |d| == 2
    ensures y + "-" + m + "-" + d + "T" == [y[0], y[1], y[2], y[3], '-', m[0], m[1], '-', d[0], d[1], 'T']
  {
  }

  lemma ClockRenders(h: nat, min: nat, sec: nat)
    requires h < 100 && min < 100 && sec < 100
    ensures Padded(h, 2) + ":" + Padded(min, 2) + ":" + Padded(sec, 2) + "Z" == ClockText(h, min, sec)
  {
    PaddedTwo(h);
    PaddedTwo(min);
    PaddedTwo(sec);
    NineChars(Padded(h, 2), Padded(min, 2), Padded(sec, 2));
  }

  lemma NineChars(h: string, min: string, sec: string)
    requires |h| == 2 && |min| == 2 && |sec| == 2
    ensures h + ":" + min + ":" + sec + "Z" == [h[0], h[1], ':', min[0], min[1], ':', sec[0], sec[1], 'Z']
  {
  }

  lemma SevenParts(s: string, a: string, b: string, c: string, d: string, e: string, f: string)
    ensures s + a + b + c + d + e + f == s + (a + b + c + d + e + f)
  {
  }

  lemma TextFields(y: nat, m: nat, d: nat, h: nat, min: nat, sec: nat)
    requires y <= 9999 && m < 100 && d < 100 && h < 100 && min < 100 && sec < 100
    ensures var s := DateText(y, m, d) + ClockText(h, min, sec);
      && HasLayout(s)
      && Digits(s, 0, 4) == Some(y) && Digits(s, 5, 2) == Some(m) && Digits(s, 8, 2) == Some(d)
      && Digits(s, 11, 2) == Some(h) && Digits(s, 14, 2) == Some(min) && Digits(s, 17, 2) == Some(sec)
  {
    TextLayout(y, m, d, h, min, sec);
    Fields(DateText(y, m, d) + ClockText(h, min, sec));
    FourDigits(y);
  }

  lemma TextLayout(y: nat, m: nat, d: nat, h: nat, min: nat, sec: nat)
    requires y <= 9999 && m < 100 && d < 100 && h < 100 && min < 100 && sec < 100
    ensures HasLayout(DateText(y, m, d) + ClockText(h, min, sec))
  {
  }

  /** A rendered moment has the layout of a timestamp exactly when its year has four digits,
      and its fields are then the numbers that were rendered. */
  lemma RenderedFields(y: nat, m: nat, d: nat, h: nat, min: nat, sec: nat)
    requires 1970 <= y && m < 100 && d < 100 && h < 100 && min < 100 && sec < 100
    ensures var s := Render(y, m, d, h, min, sec);
      && (HasLayout(s) <==> y <= 9999)
      && (HasLayout(s) ==>
            && Digits(s, 0, 4) == Some(y) && Digits(s, 5, 2) == Some(m) && Digits(s, 8, 2) == Some(d)
            && Digits(s, 11, 2) == Some(h) && Digits(s, 14, 2) == Some(min) && Digits(s, 17, 2) == Some(sec))
  {
    if y > 9999 {
      LongYear(y);
      PaddedTwo(m);
      PaddedTwo(d);
      PaddedTwo(h);
      PaddedTwo(min);
      PaddedTwo(sec);
      assert |Render(y, m, d, h, min, sec)| >= 21;
    } else {
      RenderedText(y, m, d, h, min, sec);
      TextFields(y, m, d, h, min, sec);
    }
  }

  lemma FourDigits(n: nat)
    requires n <= 9999
    ensures n == 1000 * (n / 1000) + 100 * (n / 100 % 10) + 10 * (n / 10 % 10) + n % 10
    ensures n / 1000 < 10
  {
    assert n == 10 * (n / 10) + n % 10;
    assert n / 10 / 10 == n / 100 && n / 10 == 10 * (n / 100) + n / 10 % 10;
    assert n / 100 / 10 == n / 1000 && n / 100 == 10 * (n / 1000) + n / 100 % 10;
  }

  /** Formatting succeeds exactly up to the year 9999, and the timestamp names the moment it
      was made from. */
  lemma FormatRoundTrip(seconds: nat)
    ensures FormatUnixTimestamp(seconds).Some? <==> DateOf(seconds).0 <= 9999
    ensures FormatUnixTimestamp(seconds).Some? ==>
      var s := FormatUnixTimestamp(seconds).value; IsUtcTimestamp(s) && Instant(s) == seconds
  {
    var (y, m, d) := DateOf(seconds);
    var t := seconds % 86_400;
    RenderedFields(y, m, d, t / 3_600, t / 60 % 60, t % 60);
    CivilDateIsCorrect(seconds / 86_400);
    ClockFields(t);
  }

  lemma ClockFields(t: nat)
    requires t < 86_400
    ensures t / 3_600 <= 23 && t == t / 3_600 * 3_600 + t / 60 % 60 * 60 + t % 60
  {
    assert t / 60 / 60 == t / 3_600;
  }

  predicate FitsI64(n: int) { -0x8000_0000_0000_0000 <= n < 0x8000_0000_0000_0000 }

  /** Every value that `civil_date` computes from the day within a year that begins in March fits,
      and the two conversions to 32 bits take the value they are given. */
  ghost predicate MonthPartFits(y: int, doy: int) {
    var mp := TruncDiv(5 * doy + 2, 153);
    var month, day := mp + (if mp < 10 then 3 else -9), doy - TruncDiv(153 * mp + 2, 5) + 1;
    && 0 <= doy <= 365 && FitsI64(5 * doy + 2) && 0 <= mp <= 11 && FitsI64(153 * mp + 2)
    && 1 <= month <= 12 && 1 <= day <= 31
    && DateInYear(y, doy) == (y + (if mp >= 10 then 1 else 0), month, day)
  }

  /** Every value that `civil_date` computes from the day within an era fits. */
  ghost predicate EraPartFits(era: int, doe: int) {
    var yoe := TruncYear(doe);
    && 0 <= doe < 146_097
    && FitsI64(doe - TruncDiv(doe, 1_460)) && FitsI64(doe - TruncDiv(doe, 1_460) + TruncDiv(doe, 36_524))
    && 0 <= yoe < 400 && FitsI64(365 * yoe + TruncDiv(yoe, 4)) && FitsI64(era * 400) && FitsI64(yoe + era * 400 + 1)
    && MonthPartFits(yoe + era * 400, TruncDay(doe, yoe))
  }

  lemma MonthFits(y: int, doy: int)
    requires 0 <= doy <= 365
    ensures MonthPartFits(y, doy)
  {
    MonthFormula(doy);
  }

  lemma EraFits(era: int, doe: int)
    requires 0 <= doe < 146_097 && 0 <= era < 0x1_0000_0000_0000
    ensures EraPartFits(era, doe)
  {
    YearOfEra(doe);
    var yoe := YearOf(doe);
    assert doe - doe / 1_460 >= 0;
    YearDoesNotTruncate(doe);
    DayDoesNotTruncate(doe);
    MonthFits(yoe + era * 400, DayOfYear(doe));
  }

  /** No intermediate value of the conversion leaves the 64-bit range, for any clock value. */
  lemma NoOverflow(seconds: nat)
    requires seconds < 0x1_0000_0000_0000_0000
    ensures var z := seconds / 86_400 + 719_468;
      var era := TruncDiv(z, 146_097);
      FitsI64(z) && FitsI64(era * 146_097) && EraPartFits(era, z - era * 146_097)
  {
    var z := seconds / 86_400 + 719_468;
    EraFits(z / 146_097, z % 146_097);
  }

  /******* String order is time order *******/

  predicate EarlierFields(a: string, b: string)
    requires IsUtcTimestamp(a) && IsUtcTimestamp(b)
  {
    Fields(a);
    Fields(b);
    var (da, db) := ((Four(a, 0), Two(a, 5), Two(a, 8)), (Four(b, 0), Two(b, 5), Two(b, 8)));
    || DateLess(da, db)
    || (da == db &&
        Two(a, 11) * 3_600 + Two(a, 14) * 60 + Two(a, 17) < Two(b, 11) * 3_600 + Two(b, 14) * 60 + Two(b, 17))
  }

  lemma {:induction false} FirstDifference(a: string, b: string) returns (k: nat)
    requires |a| == |b| && a != b && StringLe(a, b)
    ensures k < |a| && a[..k] == b[..k] && a[k] < b[k]
  {
    if a[0] != b[0] {
      k := 0;
    } else {
      assert a == [a[0]] + a[1..] && b == [b[0]] + b[1..];
      var j := FirstDifference(a[1..], b[1..]);
      k := j + 1;
      forall i | 0 <= i < k ensures a[i] == b[i] {
        if i > 0 {
          assert a[1..][..j][i - 1] == a[i] && b[1..][..j][i - 1] == b[i];
        }
      }
    }
  }

  lemma DifferenceOrdersFields(a: string, b: string, k: nat)
    requires IsUtcTimestamp(a) && IsUtcTimestamp(b)
    requires k < 20 && a[k] < b[k] && forall i | 0 <= i < k :: a[i] == b[i]
    ensures EarlierFields(a, b)
  {
    Fields(a);
    Fields(b);
    assert k !in SEPARATORS;
    SameBefore(a, b, k);
    if k < 4 {
      FourGrows(a, b, k);
    } else {
      assert k in {5, 6, 8, 9, 11, 12, 14, 15, 17, 18};
      var i := if k in {5, 8, 11, 14, 17} then k else k - 1;
      TwoGrows(a, b, i, k);
      if k >= 11 {
        ClockGrows(a, b, i);
      }
    }
  }

  /** The fields that end before the first difference are the same. */
  lemma SameBefore(a: string, b: string, k: nat)
    requires HasLayout(a) && HasLayout(b) && k < 20 && forall i | 0 <= i < k :: a[i] == b[i]
    ensures DigitsAt(a, 0, 4) && DigitsAt(b, 0, 4) && (k >= 5 ==> Four(a, 0) == Four(b, 0))
    ensures forall i | i in {5, 8, 11, 14, 17} ::
      DigitsAt(a, i, 2) && DigitsAt(b, i, 2) && (k >= i + 2 ==> Two(a, i) == Two(b, i))
  {
    Fields(a);
    Fields(b);
  }

  lemma TwoGrows(a: string, b: string, i: nat, k: nat)
    requires DigitsAt(a, i, 2) && DigitsAt(b, i, 2) && i <= k <= i + 1 && a[k] < b[k]
    requires forall j | i <= j < k :: a[j] == b[j]
    ensures Two(a, i) < Two(b, i)
  {
  }

  lemma FourGrows(a: string, b: string, k: nat)
    requires DigitsAt(a, 0, 4) && DigitsAt(b, 0, 4) && k < 4 && a[k] < b[k]
    requires forall j | 0 <= j < k :: a[j] == b[j]
    ensures Four(a, 0) < Four(b, 0)
  {
    if k < 2 {
      TwoGrows(a, b, 0, k);
    } else {
      assert Two(a, 0) == Two(b, 0);
      TwoGrows(a, b, 2, k);
    }
  }

  /** A larger clock field, with the same fields before it, makes a later time of day. */
  lemma ClockGrows(a: string, b: string, i: nat)
    requires IsUtcTimestamp(a) && IsUtcTimestamp(b) && i in {11, 14, 17}
    requires DigitsAt(a, i, 2) && DigitsAt(b, i, 2) && Two(a, i) < Two(b, i)
    requires forall j | j in {11, 14} && j < i :: DigitsAt(a, j, 2) && DigitsAt(b, j, 2) && Two(a, j) == Two(b, j)
    ensures DigitsAt(a, 11, 2) && DigitsAt(a, 14, 2) && DigitsAt(a, 17, 2)
    ensures DigitsAt(b, 11, 2) && DigitsAt(b, 14, 2) && DigitsAt(b, 17, 2)
    ensures Two(a, 11) * 3_600 + Two(a, 14) * 60 + Two(a, 17) < Two(b, 11) * 3_600 + Two(b, 14) * 60 + Two(b, 17)
  {
    Fields(a);
    Fields(b);
  }

  lemma EarlierFieldsEarlierInstant(a: string, b: string)
    requires IsUtcTimestamp(a) && IsUtcTimestamp(b) && EarlierFields(a, b)
    ensures Instant(a) < Instant(b)
  {
    Fields(a);
    Fields(b);
    var (da, db) := ((Four(a, 0), Two(a, 5), Two(a, 8)), (Four(b, 0), Two(b, 5), Two(b, 8)));
    if DateLess(da, db) {
      DayNumberIsMonotone(da, db);
    }
  }

  /** For valid timestamps, comparing the strings compares the moments they name. */
  lemma StringOrderIsTimeOrder(a: string, b: string)
    requires IsUtcTimestamp(a) && IsUtcTimestamp(b)
    ensures StringLe(a, b) <==> Instant(a) <= Instant(b)
    ensures a == b <==> Instant(a) == Instant(b)
  {
    StringLeTotal(a, b);
    if a != b {
      var (x, y) := if StringLe(a, b) then (a, b) else (b, a);
      var k := FirstDifference(x, y);
      forall i | 0 <= i < k ensures x[i] == y[i] {
        assert x[..k][i] == y[..k][i];
      }
      DifferenceOrdersFields(x, y, k);
      EarlierFieldsEarlierInstant(x, y);
    }
  }

  /** The validator accepts nothing but what formatting yields: every valid timestamp is the text
      of its own instant. */
  lemma ValidIsFormatted(s: string)
    requires IsUtcTimestamp(s)
    ensures Instant(s) >= 0 && FormatUnixTimestamp(Instant(s)) == Some(s)
  {
    Fields(s);
    var y, m, d := Four(s, 0), Two(s, 5), Two(s, 8);
    var clock := Two(s, 11) * 3_600 + Two(s, 14) * 60 + Two(s, 17);
    if (y, m, d) != (1970, 1, 1) {
      DayNumberIsMonotone((1970, 1, 1), (y, m, d));
    }
    assert Instant(s) == DayNumber(y, m, d) * 86_400 + clock && 0 <= clock < 86_400;
    assert Instant(s) / 86_400 == DayNumber(y, m, d);
    CivilDateInverts(y, m, d);
    FormatRoundTrip(Instant(s));
    StringOrderIsTimeOrder(FormatUnixTimestamp(Instant(s)).value, s);
  }
}
