/** The proleptic Gregorian calendar as JavaScript's `Date` computes it on a
    single time line (local time taken to be UTC): day numbers counted from
    1970-01-01, their civil dates, `toISOString().split('T')[0]`, the parse of a
    date-only ISO string, and the month and year overflow rules of `setMonth`
    and `setFullYear`. */
module Calendar {
  import opened Text

  const MsPerDay: int := 86400000

  /** The day number of an instant given in milliseconds since the epoch. */
  function DayOf(ms: int): int { ms / MsPerDay }

  datatype Civil = Civil(year: int, month: int, day: int)

  predicate IsLeapYear(y: int) {
    y % 4 == 0 && (y % 100 != 0 || y % 400 == 0)
  }

  function DaysInMonth(y: int, m: int): int
    requires 1 <= m <= 12
  {
    if m == 2 then (if IsLeapYear(y) then 29 else 28)
    else if m == 4 || m == 6 || m == 9 || m == 11 then 30
    else 31
  }

  predicate ValidCivil(c: Civil) {
    1 <= c.month <= 12 && 1 <= c.day <= DaysInMonth(c.year, c.month)
  }

  /** Offset, within a March-based year, of the first day of month index mp (March = 0). */
  function MonthStart(mp: int): int { (153 * mp + 2) / 5 }

  /** Days from 0000-03-01 to the first of March of year yoe of a 400-year era. */
  function YearStart(yoe: int): int { 365 * yoe + yoe / 4 - yoe / 100 }

  function DaysFromCivil(y: int, m: int, d: int): int
    requires 1 <= m <= 12
  {
    var y' := if m <= 2 then y - 1 else y;
    var mp := if m > 2 then m - 3 else m + 9;
    (y' / 400) * 146097 + YearStart(y' % 400) + MonthStart(mp) + d - 1 - 719468
  }

  function SplitEra(doe: int): (p: (int, int))
    requires 0 <= doe < 146097
    ensures 0 <= p.0 < 400 && 0 <= p.1 <= 365
    ensures p.1 == 365 ==> IsLeapYear(p.0 + 1)
    ensures doe == YearStart(p.0) + p.1
  {
    var cent := if doe == 146096 then 3 else doe / 36524;
    var rc := doe - 36524 * cent;
    var quad := rc / 1461;
    var rq := rc % 1461;
    var yy := if rq == 1460 then 3 else rq / 365;
    var doy := rq - 365 * yy;
    var yoe := 100 * cent + 4 * quad + yy;
    assert yoe / 4 == 25 * cent + quad && yoe / 100 == cent;
    assert doy == 365 ==> rq == 1460 && yy == 3 && (quad == 24 ==> cent == 3);
    (yoe, doy)
  }

  function SplitYear(doy: int, long: bool): (md: (int, int))
    requires 0 <= doy <= (if long then 365 else 364)
    ensures 0 <= md.0 < 12 && 1 <= md.1 
    ensures MonthStart(md.0) + md.1 - 1 == doy
    ensures md.1 <= (if md.0 == 11 then (if long then 29 else 28) else MonthStart(md.0 + 1) - MonthStart(md.0))
  {
    var mp := (5 * doy + 2) / 153;
    (mp, doy - MonthStart(mp) + 1)
  }

  lemma EraShift(era: int, k: int)
    requires 0 <= k < 400
    ensures (era * 400 + k) / 400 == era && (era * 400 + k) % 400 == k
  {
  }

  lemma ModFour(t: int, k: int) ensures (4 * t + k) % 4 == k % 4 {}
  lemma ModHundred(t: int, k: int) ensures (100 * t + k) % 100 == k % 100 {}
  lemma ModFourHundred(t: int, k: int) ensures (400 * t + k) % 400 == k % 400 {}

  /** Leap years repeat with a period of 400 years. */
  lemma LeapInEra(era: int, k: int)
    requires 0 <= k <= 400
    ensures IsLeapYear(era * 400 + k) == IsLeapYear(k)
  {
    ModFour(era * 100, k);
    ModHundred(era * 4, k);
    ModFourHundred(era, k);
  }

  function CivilFromDays(z: int): (c: Civil)
    ensures ValidCivil(c)
    ensures DaysFromCivil(c.year, c.month, c.day) == z
  {
    var z' := z + 719468;
    var era := z' / 146097;
    var p := SplitEra(z' % 146097);
    var md := SplitYear(p.1, IsLeapYear(p.0 + 1));
    var m := if md.0 < 10 then md.0 + 3 else md.0 - 9;
    var y := era * 400 + p.0 + (if m <= 2 then 1 else 0);
    AssembleCivil(z', era, p.0, p.1, md.0, md.1);
    Civil(y, m, md.1)
  }

  /** The pieces `CivilFromDays` splits a day count into make up a valid
      date with that day number. */
  lemma AssembleCivil(z': int, era: int, yoe: int, doy: int, mp: int, d: int)
    requires era == z' / 146097 && z' % 146097 == YearStart(yoe) + doy
    requires 0 <= yoe < 400 && 0 <= doy <= 365 && (doy == 365 ==> IsLeapYear(yoe + 1))
    requires 0 <= mp < 12 && 1 <= d && MonthStart(mp) + d - 1 == doy
    requires d <= (if mp == 11 then (if IsLeapYear(yoe + 1) then 29 else 28) else MonthStart(mp + 1) - MonthStart(mp))
    ensures var m := if mp < 10 then mp + 3 else mp - 9;
      var y := era * 400 + yoe + (if m <= 2 then 1 else 0);
      ValidCivil(Civil(y, m, d)) && DaysFromCivil(y, m, d) == z' - 719468
  {
    var m := if mp < 10 then mp + 3 else mp - 9;
    var y := era * 400 + yoe + (if m <= 2 then 1 else 0);
    EraShift(era, yoe);
    LeapInEra(era, yoe + 1);
    assert m <= 2 ==> IsLeapYear(y) == IsLeapYear(yoe + 1);
    assert d <= DaysInMonth(y, m) by {
      assert MonthStart(0) == 0 && MonthStart(1) == 31 && MonthStart(2) == 61 && MonthStart(3) == 92;
      assert MonthStart(4) == 122 && MonthStart(5) == 153 && MonthStart(6) == 184 && MonthStart(7) == 214;
      assert MonthStart(8) == 245 && MonthStart(9) == 275 && MonthStart(10) == 306 && MonthStart(11) == 337;
      assert MonthStart(12) == 367;
    }
  }

  // ---------------------------------------------------------------------------
  // Year arithmetic

  /** First day (March 1st) of the March-based year y', as a day count from 0000-03-01. */
  function MarchYearStart(y': int): int {
    (y' / 400) * 146097 + YearStart(y' % 400)
  }

  lemma QuarterStep(k: int)
    requires 0 <= k
    ensures (k + 1) / 4 - k / 4 == if (k + 1) % 4 == 0 then 1 else 0
  {
  }

  lemma CenturyStep(k: int)
    requires 0 <= k
    ensures (k + 1) / 100 - k / 100 == if (k + 1) % 100 == 0 then 1 else 0
  {
  }

  lemma YearStartStep(k: int)
    requires 0 <= k < 399
    ensures YearStart(k + 1) - YearStart(k) == if IsLeapYear(k + 1) then 366 else 365
  {
    QuarterStep(k);
    CenturyStep(k);
    assert (k + 1) % 100 == 0 ==> (k + 1) % 4 == 0;
  }

  /** A March-based year y' lasts 366 days exactly when y' + 1 is a leap year. */
  lemma MarchYearLength(y': int)
    ensures MarchYearStart(y' + 1) - MarchYearStart(y') == if IsLeapYear(y' + 1) then 366 else 365
  {
    var e, k := y' / 400, y' % 400;
    assert y' == 400 * e + k;
    LeapInEra(e, k + 1);
    assert e * 400 + (k + 1) == y' + 1;
    if k < 399 {
      EraShift(e, k + 1);
      YearStartStep(k);
      assert MarchYearStart(y' + 1) == e * 146097 + YearStart(k + 1);
    } else {
      EraShift(e + 1, 0);
      assert MarchYearStart(y' + 1) == (e + 1) * 146097;
    }
  }

  /** Every valid date of year y comes before the first of January of year y + 1. */
  lemma BeforeNextNewYear(c: Civil)
    requires ValidCivil(c)
    ensures DaysFromCivil(c.year, c.month, c.day) < DaysFromCivil(c.year + 1, 1, 1)
  {
    MarchYearLength(c.year - 1);
  }

  /** Within a year, the first of any month is on or after the first of January. */
  lemma MonthOnOrAfterNewYear(y: int, m: int)
    requires 1 <= m <= 12
    ensures DaysFromCivil(y, m, 1) >= DaysFromCivil(y, 1, 1)
  {
    MarchYearLength(y - 1);
  }

  // ---------------------------------------------------------------------------
  // JavaScript's MakeDay: `setMonth(month, date)` and `setFullYear(year)`

  /** Day number of the given year, zero-based month and day of month, where
      the month may lie outside 0..11 (it carries into the year) and the day
      may exceed the month (it carries into the following days). */
  function MakeDay(year: int, monthIndex: int, date: int): int {
    DaysFromCivil(year + monthIndex / 12, monthIndex % 12 + 1, 1) + date - 1
  }

  lemma MakeDayOfCivil(c: Civil)
    requires ValidCivil(c)
    ensures MakeDay(c.year, c.month - 1, c.day) == DaysFromCivil(c.year, c.month, c.day)
  {
    assert (c.month - 1) / 12 == 0 && (c.month - 1) % 12 + 1 == c.month;
  }

  /** A day of a month of year y, given as in `setFullYear(y)`, is on or after
      the first of January of y. */
  lemma MakeDayInYear(y: int, monthIndex: int, date: int)
    requires 0 <= monthIndex < 12 && 1 <= date
    ensures MakeDay(y, monthIndex, date) >= DaysFromCivil(y, 1, 1)
  {
    MonthOnOrAfterNewYear(y, monthIndex + 1);
  }

  /** The first of January after the year of `today` is later than today. */
  lemma NewYearAfter(today: int)
    ensures DaysFromCivil(CivilFromDays(today).year + 1, 1, 1) > today
  {
    BeforeNextNewYear(CivilFromDays(today));
  }

  /** Any day of the year after the one of `today` is later than today. */
  lemma NextYearAfter(today: int, monthIndex: int, date: int)
    requires 0 <= monthIndex < 12 && 1 <= date
    ensures MakeDay(CivilFromDays(today).year + 1, monthIndex, date) > today
  {
    NewYearAfter(today);
    MakeDayInYear(CivilFromDays(today).year + 1, monthIndex, date);
  }

  // ---------------------------------------------------------------------------
  // Day numbers follow the order of civil dates

  /** The last day of a month is followed by the first of the next month. */
  lemma MonthEndStep(y: int, m: int)
    requires 1 <= m < 12
    ensures DaysFromCivil(y, m + 1, 1) == DaysFromCivil(y, m, DaysInMonth(y, m)) + 1
  {
    assert MonthStart(0) == 0 && MonthStart(1) == 31 && MonthStart(2) == 61 && MonthStart(3) == 92;
    assert MonthStart(4) == 122 && MonthStart(5) == 153 && MonthStart(6) == 184 && MonthStart(7) == 214;
    assert MonthStart(8) == 245 && MonthStart(9) == 275 && MonthStart(10) == 306 && MonthStart(11) == 337;
    if m == 2 {
      MarchYearLength(y - 1);
      assert DaysFromCivil(y, 3, 1) == MarchYearStart(y) - 719468;
      assert DaysFromCivil(y, 2, 1) == MarchYearStart(y - 1) + 337 - 719468;
    }
  }

  /** A day of month m1 comes before the first of a later month m2. */
  lemma {:induction false} BeforeLaterMonth(y: int, m1: int, d1: int, m2: int)
    requires 1 <= m1 < m2 <= 12 && d1 <= DaysInMonth(y, m1)
    ensures DaysFromCivil(y, m1, d1) < DaysFromCivil(y, m2, 1)
    decreases m2 - m1
  {
    MonthEndStep(y, m1);
    if m1 + 1 < m2 {
      BeforeLaterMonth(y, m1 + 1, 1, m2);
    }
  }

  /** New Year's days come in the order of their years. */
  lemma {:induction false} NewYearsOrdered(a: int, b: int)
    requires a <= b
    ensures DaysFromCivil(a, 1, 1) <= DaysFromCivil(b, 1, 1)
    decreases b - a
  {
    if a < b {
      BeforeNextNewYear(Civil(a, 1, 1));
      NewYearsOrdered(a + 1, b);
    }
  }

  /** `a` is an earlier civil date than `b`. */
  predicate Earlier(a: Civil, b: Civil) {
    a.year < b.year || (a.year == b.year && (a.month < b.month || (a.month == b.month && a.day < b.day)))
  }

  /** An earlier valid date has a smaller day number. */
  lemma EarlierIsSmaller(a: Civil, b: Civil)
    requires ValidCivil(a) && ValidCivil(b) && Earlier(a, b)
    ensures DaysFromCivil(a.year, a.month, a.day) < DaysFromCivil(b.year, b.month, b.day)
  {
    if a.year < b.year {
      BeforeNextNewYear(a);
      NewYearsOrdered(a.year + 1, b.year);
      MonthOnOrAfterNewYear(b.year, b.month);
    } else if a.month < b.month {
      BeforeLaterMonth(a.year, a.month, a.day, b.month);
    }
  }

  /** The civil date of the day number of a valid date is that date. */
  lemma CivilOfDays(c: Civil)
    requires ValidCivil(c)
    ensures CivilFromDays(DaysFromCivil(c.year, c.month, c.day)) == c
  {
    var c' := CivilFromDays(DaysFromCivil(c.year, c.month, c.day));
    if Earlier(c, c') {
      EarlierIsSmaller(c, c');
    } else if Earlier(c', c) {
      EarlierIsSmaller(c', c);
    }
  }

  /** 0 for Sunday through 6 for Saturday (`getDay`); 1970-01-01 was a Thursday. */
  function Weekday(z: int): (w: int)
    ensures 0 <= w < 7
  {
    (z + 4) % 7
  }

  // ---------------------------------------------------------------------------
  // ISO date strings

  /** The year part of `toISOString`: four digits, or a sign and six digits
      outside 0..9999. */
  function YearText(y: int): string {
    if 0 <= y <= 9999 then PadStart(NatToString(y), 4, '0')
    else (if y < 0 then "-" else "+") + PadStart(NatToString(if y < 0 then -y else y), 6, '0')
  }

  /** `date.toISOString().split('T')[0]` of any instant on day z. */
  function IsoDate(z: int): string {
    var c := CivilFromDays(z);
    YearText(c.year) + "-" + Pad2(c.month) + "-" + Pad2(c.day)
  }

  /** The day number `new Date(s)` denotes for a date-only string "YYYY-MM-DD"
      (midnight UTC); `None` where the result is an invalid date. */
  function ParseIsoDate(s: string): Option<int> {
    if |s| == 10 && s[4] == '-' && s[7] == '-' &&
       AllDigits(s[..4]) && AllDigits(s[5..7]) && AllDigits(s[8..])
    then
      var y, m, d := DigitsValue(s[..4]), DigitsValue(s[5..7]), DigitsValue(s[8..]);
      if 1 <= m <= 12 && 1 <= d <= DaysInMonth(y, m) then Some(DaysFromCivil(y, m, d)) else None
    else None
  }

  lemma {:induction false} ZeroPrefix(z: string, s: string)
    requires forall k :: 0 <= k < |z| ==> z[k] == '0'
    requires AllDigits(s)
    ensures AllDigits(z + s) && DigitsValue(z + s) == DigitsValue(s)
    decreases |s|, |z|
  {
    var t := z + s;
    if s == [] {
      assert t == z;
      if z != [] {
        ZeroPrefix(z[..|z| - 1], []);
        assert z[..|z| - 1] + [] == z[..|z| - 1];
      }
    } else {
      ZeroPrefix(z, s[..|s| - 1]);
      assert t[..|t| - 1] == z + s[..|s| - 1];
    }
  }

  lemma YearTextDigits(y: int)
    requires 0 <= y <= 9999
    ensures |YearText(y)| == 4 && AllDigits(YearText(y)) && DigitsValue(YearText(y)) == y
  {
    var ys := NatToString(y);
    ZeroPrefix(seq(4 - |ys|, _ => '0'), ys);
  }

  lemma ParseIsoShape(yt: string, mt: string, dt: string)
    requires |yt| == 4 && |mt| == 2 && |dt| == 2
    requires AllDigits(yt) && AllDigits(mt) && AllDigits(dt)
    requires 1 <= DigitsValue(mt) <= 12
    requires 1 <= DigitsValue(dt) <= DaysInMonth(DigitsValue(yt), DigitsValue(mt))
    ensures ParseIsoDate(yt + "-" + mt + "-" + dt) ==
            Some(DaysFromCivil(DigitsValue(yt), DigitsValue(mt), DigitsValue(dt)))
  {
    var s := yt + "-" + mt + "-" + dt;
    assert s[..4] == yt && s[5..7] == mt && s[8..] == dt;
  }

  /** The stored form of a date reads back as the same day (for years 0..9999). */
  lemma IsoDateRoundTrip(z: int)
    requires 0 <= CivilFromDays(z).year <= 9999
    ensures ParseIsoDate(IsoDate(z)) == Some(z)
  {
    var c := CivilFromDays(z);
    YearTextDigits(c.year);
    ParseIsoShape(YearText(c.year), Pad2(c.month), Pad2(c.day));
  }
}
