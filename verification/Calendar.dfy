/** The proleptic Gregorian calendar of section 21.4.1 of ECMA-262, on integer
    day numbers (day 0 is 1970-01-01).  Every date the program computes goes
    through these functions: `Date.UTC` is `UtcDay`, the UTC getters are
    `FromDay`. */
module Calendar {

  /** `month` counts from 1, as in the date strings; ECMA-262 counts from 0. */
  datatype Civil = Civil(year: int, month: int, day: int)

  predicate LeapYear(y: int) {
    y % 4 == 0 && (y % 100 != 0 || y % 400 == 0)
  }

  function DaysInYear(y: int): int {
    if LeapYear(y) then 366 else 365
  }

  // Fourth, hundredth and four-hundredth years before year y, less those before 1970.
  function Fourths(y: int): int { (y - 1969) / 4 }
  function Hundredths(y: int): int { (y - 1901) / 100 }
  function FourHundredths(y: int): int { (y - 1601) / 400 }

  function DayFromYear(y: int): int {
    365 * (y - 1970) + Fourths(y) - Hundredths(y) + FourHundredths(y)
  }

  /** Days of year `y` before the first of month `m`. */
  function MonthStart(y: int, m: int): int
    requires 1 <= m <= 13
  {
    var leap := if LeapYear(y) then 1 else 0;
    match m
    case 1 => 0
    case 2 => 31
    case 3 => 59 + leap
    case 4 => 90 + leap
    case 5 => 120 + leap
    case 6 => 151 + leap
    case 7 => 181 + leap
    case 8 => 212 + leap
    case 9 => 243 + leap
    case 10 => 273 + leap
    case 11 => 304 + leap
    case 12 => 334 + leap
    case _ => 365 + leap
  }

  function DaysInMonth(y: int, m: int): int
    requires 1 <= m <= 12
  {
    MonthStart(y, m + 1) - MonthStart(y, m)
  }

  predicate RealDate(c: Civil) {
    1 <= c.month <= 12 && 1 <= c.day <= DaysInMonth(c.year, c.month)
  }

  /** MakeDay: months and days outside their range carry over. */
  function MakeDay(year: int, month: int, day: int): int {
    var y := year + (month - 1) / 12;
    DayFromYear(y) + MonthStart(y, (month - 1) % 12 + 1) + day - 1
  }

  /** The day number `Date.UTC` computes: a year 0 to 99 means 1900 to 1999. */
  function UtcDay(year: int, month: int, day: int): int {
    MakeDay(if 0 <= year <= 99 then 1900 + year else year, month, day)
  }

  lemma FourthsStep(y: int)
    ensures Fourths(y + 1) == Fourths(y) + (if y % 4 == 0 then 1 else 0)
  {
  }

  lemma HundredthsStep(y: int)
    ensures Hundredths(y + 1) == Hundredths(y) + (if y % 100 == 0 then 1 else 0)
  {
  }

  lemma FourHundredthsStep(y: int)
    ensures FourHundredths(y + 1) == FourHundredths(y) + (if y % 400 == 0 then 1 else 0)
  {
  }

  lemma MultipleOfHundred(y: int)
    ensures y % 100 == 0 ==> y % 4 == 0
  {
    var q := y / 100;
    assert y == 100 * q + y % 100;
    assert 100 * q == 4 * (25 * q);
  }

  lemma MultipleOfFourHundred(y: int)
    ensures y % 400 == 0 ==> y % 100 == 0
  {
    var q := y / 400;
    assert y == 400 * q + y % 400;
    assert 400 * q == 100 * (4 * q);
  }

  lemma Multiples(y: int)
    ensures y % 100 == 0 ==> y % 4 == 0
    ensures y % 400 == 0 ==> y % 100 == 0
  {
    MultipleOfHundred(y);
    MultipleOfFourHundred(y);
  }

  /** Consecutive years begin one year length apart. */
  lemma YearLength(y: int)
    ensures DayFromYear(y + 1) == DayFromYear(y) + DaysInYear(y)
  {
    hide Fourths, Hundredths, FourHundredths;
    FourthsStep(y);
    HundredthsStep(y);
    FourHundredthsStep(y);
    Multiples(y);
  }

  /** The year among `y`, `y + 1`, ... that day `n` falls in. */
  function YearSearch(y: int, n: int): (r: int)
    requires DayFromYear(y) <= n
    ensures DayFromYear(r) <= n < DayFromYear(r + 1)
    decreases n - DayFromYear(y)
  {
    YearLength(y);
    if n < DayFromYear(y + 1) then y else YearSearch(y + 1, n)
  }

  /** YearFromTime: the largest year that starts on or before day `n`. */
  function YearFromDay(n: int): (y: int)
    ensures DayFromYear(y) <= n < DayFromYear(y + 1)
  {
    var estimate := 1970 + (if n >= 0 then n / 366 else n / 365);
    assert DayFromYear(estimate) <= n by { EstimateIsEarly(n); }
    YearSearch(estimate, n)
  }

  lemma EstimateIsEarly(n: int)
    ensures DayFromYear(1970 + (if n >= 0 then n / 366 else n / 365)) <= n
  {
    hide DayFromYear;
    if n >= 0 {
      YearStartAtMost(n / 366);
    } else {
      YearStartAtMost(n / 365);
    }
  }

  lemma YearStartAtMost(k: int)
    ensures DayFromYear(1970 + k) <= 365 * k + (if k >= 0 then k else 0)
    decreases if k >= 0 then k else -k
  {
    hide DayFromYear, LeapYear;
    if k > 0 {
      YearStartAtMost(k - 1);
      YearLength(1970 + k - 1);
    } else if k < 0 {
      YearStartAtMost(k + 1);
      YearLength(1970 + k);
    } else {
      EpochYear();
    }
  }

  lemma EpochYear()
    ensures DayFromYear(1970) == 0
  {
  }

  function MonthSearch(y: int, m: int, offset: int): (r: int)
    requires 1 <= m <= 12 && MonthStart(y, m) <= offset < DaysInYear(y)
    ensures 1 <= r <= 12 && MonthStart(y, r) <= offset < MonthStart(y, r + 1)
    decreases 12 - m
  {
    if m == 12 || offset < MonthStart(y, m + 1) then m else MonthSearch(y, m + 1, offset)
  }

  function DateInYear(y: int, offset: int): (c: Civil)
    requires 0 <= offset < DaysInYear(y)
    ensures RealDate(c) && c.year == y && MonthStart(y, c.month) + c.day - 1 == offset
  {
    var m := MonthSearch(y, 1, offset);
    Civil(y, m, offset - MonthStart(y, m) + 1)
  }

  /** What getUTCFullYear, getUTCMonth (plus one) and getUTCDate read off day `n`. */
  function FromDay(n: int): (c: Civil)
    ensures RealDate(c)
  {
    var y := YearFromDay(n);
    YearLength(y);
    DateInYear(y, n - DayFromYear(y))
  }

  lemma YearsAreOrdered(a: int, b: int)
    requires a < b
    ensures DayFromYear(a) + DaysInYear(a) <= DayFromYear(b)
    decreases b - a
  {
    YearLength(a);
    if a + 1 < b {
      YearsAreOrdered(a + 1, b);
    }
  }

  lemma MonthsAreOrdered(y: int, a: int, b: int)
    requires 1 <= a < b <= 13
    ensures MonthStart(y, a + 1) <= MonthStart(y, b)
  {
    hide LeapYear;
  }

  /** Reading the calendar off a day number and making the day again is the identity. */
  lemma MakeDayOfFromDay(n: int)
    ensures var c := FromDay(n); MakeDay(c.year, c.month, c.day) == n
  {
    hide DayFromYear, MonthStart, MakeDay, DateInYear, LeapYear;
    var y := YearFromDay(n);
    YearLength(y);
    DayOfRealDate(FromDay(n));
  }

  predicate Earlier(a: Civil, b: Civil) {
    a.year < b.year
    || (a.year == b.year && (a.month < b.month || (a.month == b.month && a.day < b.day)))
  }

  /** On real dates the day number grows exactly with the calendar order. */
  lemma DayOrderIsDateOrder(a: Civil, b: Civil)
    requires RealDate(a) && RealDate(b)
    ensures MakeDay(a.year, a.month, a.day) < MakeDay(b.year, b.month, b.day) <==> Earlier(a, b)
  {
    if Earlier(a, b) {
      EarlierIsSmaller(a, b);
    } else if Earlier(b, a) {
      EarlierIsSmaller(b, a);
    }
  }

  lemma DayOfRealDate(c: Civil)
    requires RealDate(c)
    ensures MakeDay(c.year, c.month, c.day) == DayFromYear(c.year) + MonthStart(c.year, c.month) + c.day - 1
    ensures 0 <= MonthStart(c.year, c.month) + c.day - 1 < DaysInYear(c.year)
  {
    hide DayFromYear, LeapYear;
  }

  lemma EarlierIsSmaller(a: Civil, b: Civil)
    requires RealDate(a) && RealDate(b) && Earlier(a, b)
    ensures MakeDay(a.year, a.month, a.day) < MakeDay(b.year, b.month, b.day)
  {
    hide DayFromYear, MonthStart, LeapYear, MakeDay;
    DayOfRealDate(a);
    DayOfRealDate(b);
    if a.year < b.year {
      YearsAreOrdered(a.year, b.year);
    } else if a.month < b.month {
      MonthsAreOrdered(a.year, a.month, b.month);
    }
  }

  /** Every real date is read back from the day it makes. */
  lemma FromDayOfMakeDay(c: Civil)
    requires RealDate(c)
    ensures FromDay(MakeDay(c.year, c.month, c.day)) == c
  {
    var n := MakeDay(c.year, c.month, c.day);
    MakeDayOfFromDay(n);
    DayOrderIsDateOrder(c, FromDay(n));
    DayOrderIsDateOrder(FromDay(n), c);
  }

  lemma DayLiesInItsYear(c: Civil)
    requires RealDate(c)
    ensures DayFromYear(c.year) <= MakeDay(c.year, c.month, c.day) < DayFromYear(c.year + 1)
  {
    hide DayFromYear;
    YearLength(c.year);
  }

  /** `Date.UTC` sends a real date of the years 0 to 99 nineteen centuries
      away, so the getters cannot return it. */
  lemma EarlyYearsAreMoved(c: Civil)
    requires RealDate(c) && 0 <= c.year <= 99
    ensures UtcDay(c.year, c.month, c.day) > MakeDay(c.year, c.month, c.day)
    ensures FromDay(UtcDay(c.year, c.month, c.day)) != c
  {
    hide DayFromYear, FromDay, MonthStart, MakeDay, RealDate;
    MovedIsLater(c);
    MakeDayOfFromDay(UtcDay(c.year, c.month, c.day));
  }

  lemma MovedIsLater(c: Civil)
    requires RealDate(c) && 0 <= c.year <= 99
    ensures MakeDay(1900 + c.year, c.month, c.day) > MakeDay(c.year, c.month, c.day)
  {
    hide DayFromYear;
    DayLiesInItsYear(c);
    YearsAreOrdered(c.year, 1900 + c.year);
    YearLength(c.year);
    assert MonthStart(1900 + c.year, c.month) >= 0;
  }

  /** The getters return what went into `Date.UTC` exactly for the real dates
      outside the years 0 to 99. */
  lemma UtcRoundTripIsRealDate(c: Civil)
    ensures FromDay(UtcDay(c.year, c.month, c.day)) == c <==> RealDate(c) && !(0 <= c.year <= 99)
  {
    hide DayFromYear, MonthStart, FromDay;
    var n := UtcDay(c.year, c.month, c.day);
    MakeDayOfFromDay(n);
    if RealDate(c) {
      if 0 <= c.year <= 99 {
        EarlyYearsAreMoved(c);
      } else {
        FromDayOfMakeDay(c);
      }
    }
  }
}
