/** src/common/utils/kst-date.util.ts: conversions between "YYYY-MM-DD" strings
    of the Korean calendar and instants, in milliseconds since 1970-01-01 UTC. */
module KstDate {
  import opened Calendar

  const DAY_MS := 24 * 60 * 60 * 1000
  const KST_OFFSET_MS := 9 * 60 * 60 * 1000

  predicate IsDigit(c: char) {
    '0' <= c <= '9'
  }

  function Value(c: char): (v: int)
    requires IsDigit(c)
    ensures 0 <= v <= 9
  {
    c as int - '0' as int
  }

  function Digit(v: int): (c: char)
    requires 0 <= v <= 9
    ensures IsDigit(c) && Value(c) == v
  {
    ('0' as int + v) as char
  }

  function Pad2(n: int): string
    requires 0 <= n <= 99
  {
    [Digit(n / 10), Digit(n % 10)]
  }

  function Pad4(n: int): string
    requires 0 <= n <= 9999
  {
    Pad2(n / 100) + Pad2(n % 100)
  }

  /** A number written without leading zeros. */
  function Decimal(n: nat): string {
    if n < 10 then [Digit(n)] else Decimal(n / 10) + [Digit(n % 10)]
  }

  /** The first ten characters of toISOString: outside the years 0 to 9999 the
      year is signed and six digits long, which pushes the day out of the ten. */
  function IsoDate(c: Civil): string
    requires RealDate(c)
  {
    if 0 <= c.year <= 9999 then
      Pad4(c.year) + "-" + Pad2(c.month) + "-" + DayText(c)
    else
      var size := if c.year < 0 then -c.year else c.year;
      (if c.year < 0 then "-" else "+")
      + Pad2(size / 10000 % 100) + Pad4(size % 10000) + "-" + Pad2(c.month)
  }

  function DayText(c: Civil): string
    requires RealDate(c)
  {
    Pad2(c.day)
  }

  /** DATE_ONLY_PATTERN. */
  predicate DateOnly(s: string) {
    && |s| == 10 && s[4] == '-' && s[7] == '-'
    && IsDigit(s[0]) && IsDigit(s[1]) && IsDigit(s[2]) && IsDigit(s[3])
    && IsDigit(s[5]) && IsDigit(s[6]) && IsDigit(s[8]) && IsDigit(s[9])
  }

  /** `input.split('-').map(Number)`. */
  function Parts(s: string): (c: Civil)
    requires DateOnly(s)
    ensures 0 <= c.year <= 9999 && 0 <= c.month <= 99 && 0 <= c.day <= 99
  {
    Civil(1000 * Value(s[0]) + 100 * Value(s[1]) + 10 * Value(s[2]) + Value(s[3]),
          10 * Value(s[5]) + Value(s[6]),
          10 * Value(s[8]) + Value(s[9]))
  }

  /** `Date.UTC` on the three numbers of a date string. */
  function UtcDayOf(s: string): int
    requires DateOnly(s)
  {
    var c := Parts(s);
    UtcDay(c.year, c.month, c.day)
  }

  predicate IsValidKstDateString(s: string) {
    DateOnly(s) && FromDay(UtcDayOf(s)) == Parts(s)
  }

  function StartOfDay(s: string): int
    requires DateOnly(s)
  {
    UtcDayOf(s) * DAY_MS - KST_OFFSET_MS
  }

  function EndOfDay(s: string): int
    requires DateOnly(s)
  {
    var utcMidnightOfKstDay := UtcDayOf(s) * DAY_MS - KST_OFFSET_MS;
    utcMidnightOfKstDay + DAY_MS - 1
  }

  /** The number of the Korean calendar day an instant falls in. */
  function KstDay(t: int): int {
    (t + KST_OFFSET_MS) / DAY_MS
  }

  function KstYear(t: int): int {
    FromDay(KstDay(t)).year
  }

  function ToKstDateString(t: int): string {
    IsoDate(FromDay(KstDay(t)))
  }

  function AddDays(s: string, days: int): string
    requires DateOnly(s)
  {
    var c := FromDay(UtcDayOf(s) + days);
    (if c.year < 0 then "-" + Decimal(-c.year) else Decimal(c.year))
    + "-" + Pad2(c.month) + "-" + DayText(c)
  }

  /** JavaScript's `<` on strings. */
  predicate LexLess(s: string, t: string) {
    if t == [] then false
    else if s == [] then true
    else s[0] < t[0] || (s[0] == t[0] && LexLess(s[1..], t[1..]))
  }

  // ---------------------------------------------------------------- strings

  lemma FourDigits(n: int)
    requires 0 <= n <= 9999
    ensures n / 100 == 10 * (n / 1000) + n / 100 % 10
    ensures n % 100 == 10 * (n / 10 % 10) + n % 10
  {
    assert n / 100 / 10 == n / 1000;
    assert n / 10 == 10 * (n / 100) + n / 10 % 10;
  }

  lemma Pad4Digits(n: int)
    requires 0 <= n <= 9999
    ensures Pad4(n) == [Digit(n / 1000), Digit(n / 100 % 10), Digit(n / 10 % 10), Digit(n % 10)]
    ensures 1000 * (n / 1000) + 100 * (n / 100 % 10) + 10 * (n / 10 % 10) + n % 10 == n
  {
    hide Pad2, Digit;
    FourDigits(n);
    PadPair(n / 1000, n / 100 % 10);
    PadPair(n / 10 % 10, n % 10);
  }

  lemma PadPair(a: int, b: int)
    requires 0 <= a <= 9 && 0 <= b <= 9
    ensures Pad2(10 * a + b) == [Digit(a), Digit(b)]
  {
  }

  /** A real date of a four-digit year is read back from its text. */
  lemma PartsOfIsoDate(c: Civil)
    requires RealDate(c) && 0 <= c.year <= 9999
    ensures DateOnly(IsoDate(c)) && Parts(IsoDate(c)) == c
  {
    hide LeapYear;
    Pad4Digits(c.year);
    assert IsoDate(c) == [Digit(c.year / 1000), Digit(c.year / 100 % 10), Digit(c.year / 10 % 10), Digit(c.year % 10),
                          '-', Digit(c.month / 10), Digit(c.month % 10), '-', Digit(c.day / 10), Digit(c.day % 10)];
  }

  lemma Pad2OfDigits(a: char, b: char)
    requires IsDigit(a) && IsDigit(b)
    ensures Pad2(10 * Value(a) + Value(b)) == [a, b]
  {
  }

  /** ... and a real date's text is what its numbers print. */
  lemma IsoDateOfParts(s: string)
    requires DateOnly(s) && RealDate(Parts(s))
    ensures IsoDate(Parts(s)) == s
  {
    hide LeapYear, MonthStart, Pad2;
    var c := Parts(s);
    assert c.year / 100 == 10 * Value(s[0]) + Value(s[1]);
    assert c.year % 100 == 10 * Value(s[2]) + Value(s[3]);
    Pad2OfDigits(s[0], s[1]);
    Pad2OfDigits(s[2], s[3]);
    Pad2OfDigits(s[5], s[6]);
    Pad2OfDigits(s[8], s[9]);
    assert s == [s[0], s[1]] + [s[2], s[3]] + "-" + [s[5], s[6]] + "-" + [s[8], s[9]];
  }

  /** A string is accepted exactly when it spells a real date after the year 99. */
  lemma ValidityIsRealDate(s: string)
    ensures IsValidKstDateString(s) <==> DateOnly(s) && RealDate(Parts(s)) && Parts(s).year >= 100
  {
    hide LeapYear, MonthStart, FromDay, UtcDay;
    if DateOnly(s) {
      UtcRoundTripIsRealDate(Parts(s));
    }
  }

  // ---------------------------------------------------------------- instants

  /** The instants shown as date `s` are exactly the ones between its start and its end. */
  lemma DateOfInstant(s: string, t: int)
    requires IsValidKstDateString(s)
    ensures ToKstDateString(t) == s <==> StartOfDay(s) <= t <= EndOfDay(s)
  {
    hide LeapYear, MonthStart, FromDay, MakeDay, IsoDate;
    ValidityIsRealDate(s);
    var c, n := Parts(s), KstDay(t);
    assert StartOfDay(s) <= t <= EndOfDay(s) <==> n == UtcDayOf(s) by {
      assert n * DAY_MS <= t + KST_OFFSET_MS < n * DAY_MS + DAY_MS;
    }
    IsoDateOfParts(s);
    MakeDayOfFromDay(n);
    if ToKstDateString(t) == s {
      IsoDateDecides(FromDay(n), s);
    }
  }

  /** The Korean day begins nine hours before the day in UTC, and lasts 24 hours. */
  lemma KoreanMidnight(s: string, t: int)
    requires DateOnly(s)
    ensures StartOfDay(s) == (UtcDayOf(s) * 24 - 9) * 60 * 60 * 1000
    ensures EndOfDay(s) == StartOfDay(s) + 24 * 60 * 60 * 1000 - 1
    ensures KstDay(t) * 24 * 60 * 60 * 1000 <= t + 9 * 60 * 60 * 1000 < (KstDay(t) + 1) * 24 * 60 * 60 * 1000
  {
    hide UtcDayOf, DateOnly;
  }

  /** Outside the years 0 to 9999 the text is a sign, the year in six digits, and
      the month. */
  lemma LongYearText(c: Civil)
    requires RealDate(c) && -999999 <= c.year <= 999999 && !(0 <= c.year <= 9999)
    ensures var s := IsoDate(c);
            && |s| == 10 && s[0] == (if c.year < 0 then '-' else '+') && s[7] == '-'
            && (forall i :: 1 <= i <= 9 && i != 7 ==> IsDigit(s[i]))
            && 100000 * Value(s[1]) + 10000 * Value(s[2]) + 1000 * Value(s[3]) + 100 * Value(s[4])
               + 10 * Value(s[5]) + Value(s[6]) == (if c.year < 0 then -c.year else c.year)
            && 10 * Value(s[8]) + Value(s[9]) == c.month
  {
    var size := if c.year < 0 then -c.year else c.year;
    LongYearShape(c, size);
    hide IsoDate, Pad4, RealDate;
    Pad4Digits(size % 10000);
    SixDigits(size);
  }

  lemma LongYearShape(c: Civil, size: int)
    requires RealDate(c) && -999999 <= c.year <= 999999 && !(0 <= c.year <= 9999)
    requires size == if c.year < 0 then -c.year else c.year
    ensures 1 <= c.month <= 12
    ensures IsoDate(c)
         == [if c.year < 0 then '-' else '+', Digit(size / 100000), Digit(size / 10000 % 10)]
            + Pad4(size % 10000) + ['-', Digit(c.month / 10), Digit(c.month % 10)]
  {
    hide LeapYear, MonthStart, Pad4, Digit;
    assert size / 10000 % 100 == size / 10000 && size / 10000 / 10 == size / 100000;
  }

  lemma SixDigits(n: int)
    requires 0 <= n <= 999999
    ensures n / 100000 <= 9 && 100000 * (n / 100000) + 10000 * (n / 10000 % 10) + n % 10000 == n
  {
    assert n / 10000 / 10 == n / 100000;
  }

  lemma IsoDateDecides(c: Civil, s: string)
    requires RealDate(c) && DateOnly(s)
    ensures IsoDate(c) == s ==> c == Parts(s)
  {
    hide LeapYear;
    assert c.year < 0 ==> IsoDate(c)[0] == '-';
    assert c.year > 9999 ==> IsoDate(c)[0] == '+';
    if 0 <= c.year <= 9999 {
      PartsOfIsoDate(c);
    }
  }

  /** Start and end of a day both show its date, and the next day starts one
      millisecond after the end. */
  lemma DayBounds(s: string)
    requires IsValidKstDateString(s)
    ensures ToKstDateString(StartOfDay(s)) == s && ToKstDateString(EndOfDay(s)) == s
    ensures IsValidKstDateString(AddDays(s, 1)) ==> EndOfDay(s) + 1 == StartOfDay(AddDays(s, 1))
  {
    hide LeapYear, MonthStart, FromDay, MakeDay, IsoDate, UtcDay, Decimal;
    DateOfInstant(s, StartOfDay(s));
    DateOfInstant(s, EndOfDay(s));
    if IsValidKstDateString(AddDays(s, 1)) {
      AddDaysShifts(s, 1);
    }
  }

  lemma {:induction false} DecimalLength(n: nat)
    ensures n < 10 <==> |Decimal(n)| == 1
    ensures n < 100 <==> |Decimal(n)| <= 2
    ensures n < 1000 <==> |Decimal(n)| <= 3
    ensures n < 10000 <==> |Decimal(n)| <= 4
    ensures |Decimal(n)| >= 1
  {
    if n >= 10 {
      DecimalLength(n / 10);
    }
  }

  lemma DecimalOfFourDigits(n: nat)
    requires 1000 <= n <= 9999
    ensures Decimal(n) == Pad4(n)
  {
    hide Pad4, Digit;
    Pad4Digits(n);
    var a, b, c := n / 10, n / 100, n / 1000;
    assert a / 10 == b && b / 10 == c;
    assert Decimal(c) == [Digit(c)];
    assert Decimal(b) == [Digit(c), Digit(b % 10)];
    assert Decimal(a) == [Digit(c), Digit(b % 10), Digit(a % 10)];
  }

  /** Adding days gives a usable date string exactly when the shifted day lies
      in a four-digit year, since the year is printed without padding; then it
      is the date that many days away. */
  lemma AddDaysShifts(s: string, days: int)
    requires IsValidKstDateString(s)
    ensures IsValidKstDateString(AddDays(s, days)) <==> 1000 <= FromDay(UtcDayOf(s) + days).year <= 9999
    ensures IsValidKstDateString(AddDays(s, days)) ==> UtcDayOf(AddDays(s, days)) == UtcDayOf(s) + days
  {
    hide LeapYear, MonthStart, FromDay, MakeDay, Decimal, Pad4, DateOnly;
    var c, r := FromDay(UtcDayOf(s) + days), AddDays(s, days);
    if 1000 <= c.year <= 9999 {
      DecimalOfFourDigits(c.year);
      assert r == IsoDate(c);
      PartsOfIsoDate(c);
      ValidityIsRealDate(r);
      MakeDayOfFromDay(UtcDayOf(s) + days);
    } else {
      OddYearIsNoDate(s, days);
    }
  }

  lemma OddYearIsNoDate(s: string, days: int)
    requires IsValidKstDateString(s)
    requires !(1000 <= FromDay(UtcDayOf(s) + days).year <= 9999)
    ensures !DateOnly(AddDays(s, days))
  {
    hide LeapYear, MonthStart, FromDay, MakeDay, Decimal, UtcDay;
    var c := FromDay(UtcDayOf(s) + days);
    if c.year >= 0 {
      DecimalLength(c.year);
    } else {
      assert AddDays(s, days)[0] == '-';
    }
  }

  /** Adding days and taking them away again gives the date back, except for
      dates before the year 1000, whose year comes back without its zeros. */
  lemma AddDaysRoundTrip(s: string, days: int)
    requires IsValidKstDateString(s) && IsValidKstDateString(AddDays(s, days))
    ensures AddDays(AddDays(s, days), -days) == s <==> Parts(s).year >= 1000
  {
    hide LeapYear, MonthStart, FromDay, MakeDay, Decimal, Pad4, DateOnly;
    AddDaysShifts(s, days);
    AddDaysShifts(AddDays(s, days), -days);
    var c := Parts(s);
    if c.year >= 1000 { DecimalOfFourDigits(c.year); }
    ValidityIsRealDate(s);
    IsoDateOfParts(s);
  }

  // ---------------------------------------------------------------- order

  lemma {:induction false} LexIsIrreflexive(a: string)
    ensures !LexLess(a, a)
  {
    if a != [] {
      LexIsIrreflexive(a[1..]);
    }
  }

  lemma {:induction false} LexIsTotal(a: string, b: string)
    ensures LexLess(a, b) || LexLess(b, a) || a == b
  {
    if a != [] && b != [] {
      LexIsTotal(a[1..], b[1..]);
      assert a == [a[0]] + a[1..] && b == [b[0]] + b[1..];
    }
  }

  lemma {:induction false} LexIsTransitive(a: string, b: string, c: string)
    requires LexLess(a, b) && LexLess(b, c)
    ensures LexLess(a, c)
  {
    if a != [] && a[0] == b[0] == c[0] {
      LexIsTransitive(a[1..], b[1..], c[1..]);
    }
  }

  lemma LexOfPrefixed(p: string, s: string, t: string)
    ensures LexLess(p + s, p + t) <==> LexLess(s, t)
  {
    if p == [] {
      assert p + s == s && p + t == t;
    } else {
      assert (p + s)[1..] == p[1..] + s && (p + t)[1..] == p[1..] + t;
      LexOfPrefixed(p[1..], s, t);
    }
  }

  /** The first position where two strings of one length differ decides. */
  lemma LexByDifference(s: string, t: string, k: nat)
    requires |s| == |t| && k < |s| && s[..k] == t[..k] && s[k] != t[k]
    ensures LexLess(s, t) <==> s[k] < t[k]
  {
    assert s == s[..k] + s[k..] && t == s[..k] + t[k..];
    LexOfPrefixed(s[..k], s[k..], t[k..]);
  }

  /** String order is calendar order. */
  lemma StringOrderIsDateOrder(s: string, t: string)
    requires DateOnly(s) && DateOnly(t)
    ensures LexLess(s, t) <==> Earlier(Parts(s), Parts(t))
  {
    if s == t {
      assert s + "" == s;
      LexOfPrefixed(s, "", "");
    } else {
      var k :| 0 <= k < 10 && s[k] != t[k] && s[..k] == t[..k] by { FirstDifference(s, t, 0); }
      LexByDifference(s, t, k);
      assert forall i :: 0 <= i < k ==> s[i] == s[..k][i] && t[i] == t[..k][i];
    }
  }

  lemma FirstDifference(s: string, t: string, i: nat)
    requires |s| == |t| && i <= |s| && s[..i] == t[..i]
    ensures s == t || exists k :: 0 <= k < |s| && s[k] != t[k] && s[..k] == t[..k]
    decreases |s| - i
  {
    if i == |s| {
      assert s[..i] == s && t[..i] == t;
    } else if s[i] == t[i] {
      assert s[..i + 1] == s[..i] + [s[i]] && t[..i + 1] == t[..i] + [t[i]];
      FirstDifference(s, t, i + 1);
    }
  }

  /** The check a response makes against the stored deadline (rejected when
      the deadline lies before now). */
  predicate AcceptsResponse(deadline: string, now: int)
    requires DateOnly(deadline)
  {
    !(EndOfDay(deadline) < now)
  }

  /** The check publishing makes on the same stored instant. */
  predicate AcceptsPublication(deadline: string, now: int)
    requires DateOnly(deadline)
  {
    !LexLess(ToKstDateString(EndOfDay(deadline)), ToKstDateString(now))
  }

  /** A deadline is shown as the date it was set to exactly when that is a real
      date: the end of any other one falls on another day. */
  lemma DeadlineIsShownExactly(s: string)
    requires DateOnly(s)
    ensures ToKstDateString(EndOfDay(s)) == s <==> IsValidKstDateString(s)
  {
    hide LeapYear, MonthStart, FromDay, MakeDay, IsoDate, UtcDay, Parts;
    var n := UtcDayOf(s);
    assert KstDay(EndOfDay(s)) == n;
    IsoDateDecides(FromDay(n), s);
    if IsValidKstDateString(s) {
      ValidityIsRealDate(s);
      IsoDateOfParts(s);
    }
  }

  /** The last day of a deadline, counted in days. */
  lemma ResponseDeadline(deadline: string, now: int)
    requires DateOnly(deadline)
    ensures AcceptsResponse(deadline, now) <==> UtcDayOf(deadline) >= KstDay(now)
    ensures KstDay(EndOfDay(deadline)) == UtcDayOf(deadline)
  {
    hide UtcDayOf;
    var n := KstDay(now);
    assert n * DAY_MS <= now + KST_OFFSET_MS < n * DAY_MS + DAY_MS;
  }

  /** Days and the strings that show them are ordered alike. */
  lemma ShownOrder(a: int, b: int)
    requires 0 <= FromDay(a).year <= 9999 && 0 <= FromDay(b).year <= 9999
    ensures LexLess(IsoDate(FromDay(a)), IsoDate(FromDay(b))) <==> a < b
  {
    hide LeapYear, MonthStart, FromDay, MakeDay, IsoDate, DateOnly, Parts, LexLess, RealDate;
    PartsOfIsoDate(FromDay(a));
    PartsOfIsoDate(FromDay(b));
    MakeDayOfFromDay(a);
    MakeDayOfFromDay(b);
    StringOrderIsDateOrder(IsoDate(FromDay(a)), IsoDate(FromDay(b)));
    DayOrderIsDateOrder(FromDay(a), FromDay(b));
  }

  /** Whatever string of the date form a deadline was set to, a response arrives
      in time exactly when its Korean date is not after the date the deadline is
      shown as.  Publishing draws the same line exactly for deadlines up to the
      year 9999: a later one is shown with a sign, before every date. */
  lemma DeadlineChecksAgree(deadline: string, now: int)
    requires DateOnly(deadline) && 0 <= KstYear(now) <= 9999
    ensures KstYear(EndOfDay(deadline)) <= 9999 ==>
              (AcceptsResponse(deadline, now) <==> !LexLess(ToKstDateString(EndOfDay(deadline)), ToKstDateString(now)))
    ensures (AcceptsPublication(deadline, now) <==> AcceptsResponse(deadline, now))
       <==> KstYear(EndOfDay(deadline)) <= 9999
  {
    hide LeapYear, MonthStart, FromDay, MakeDay, IsoDate, DateOnly, Parts, LexLess, UtcDayOf, EndOfDay;
    ResponseDeadline(deadline, now);
    var shown, today := KstDay(EndOfDay(deadline)), KstDay(now);
    DeadlineYear(deadline);
    if FromDay(shown).year <= 9999 {
      ShownOrder(shown, today);
    } else {
      LateDaysAreSigned(shown, today);
    }
  }

  /** No date string means a day before the year 98. */
  lemma DeadlineYear(deadline: string)
    requires DateOnly(deadline)
    ensures KstYear(EndOfDay(deadline)) >= 98
  {
    var c := Parts(deadline);
    var year := if c.year <= 99 then 1900 + c.year else c.year;
    var n := UtcDayOf(deadline);
    assert KstDay(EndOfDay(deadline)) == n;
    assert n == MakeDay(year, c.month, c.day);
    hide Parts, UtcDay, FromDay, DayFromYear, MakeDay;
    MadeDayIsLate(year, c.month, c.day);
    YearAtLeast(n, 98);
  }

  lemma MadeDayIsLate(year: int, month: int, day: int)
    requires year >= 100 && 0 <= month && 0 <= day
    ensures MakeDay(year, month, day) >= DayFromYear(98)
  {
    hide DayFromYear, LeapYear, DaysInYear;
    var y := year + (month - 1) / 12;
    YearLength(y - 1);
    assert MonthStart(y, (month - 1) % 12 + 1) >= 0;
    YearStartsGrow(98, y - 1);
    AtLeastOneDay(y - 1);
  }

  lemma AtLeastOneDay(y: int)
    ensures DaysInYear(y) >= 1
  {
  }

  lemma YearStartsGrow(a: int, b: int)
    requires a <= b
    ensures DayFromYear(a) <= DayFromYear(b)
  {
    if a < b {
      YearsAreOrdered(a, b);
    }
  }

  lemma YearAtLeast(n: int, y: int)
    requires n >= DayFromYear(y)
    ensures FromDay(n).year >= y
  {
    hide DayFromYear, FromDay, MakeDay, RealDate;
    var c := FromDay(n);
    MakeDayOfFromDay(n);
    DayLiesInItsYear(c);
    if c.year < y {
      YearStartsGrow(c.year + 1, y);
    }
  }

  lemma LateDaysAreSigned(late: int, day: int)
    requires FromDay(late).year > 9999 && 0 <= FromDay(day).year <= 9999
    ensures LexLess(IsoDate(FromDay(late)), IsoDate(FromDay(day)))
    ensures late >= day
  {
    hide LeapYear, MonthStart, FromDay, MakeDay, IsoDate, DateOnly, Parts, LexLess, RealDate;
    MakeDayOfFromDay(late);
    MakeDayOfFromDay(day);
    DayOrderIsDateOrder(FromDay(day), FromDay(late));
    SignComesFirst(FromDay(late), FromDay(day));
  }

  lemma SignComesFirst(late: Civil, c: Civil)
    requires RealDate(late) && RealDate(c) && late.year > 9999 && 0 <= c.year <= 9999
    ensures LexLess(IsoDate(late), IsoDate(c))
  {
    hide RealDate;
    assert IsoDate(late)[0] == '+';
    assert IsDigit(IsoDate(c)[0]);
  }

  // ---------------------------------------------------------------- two inputs

  /** Two strings whose digits are given: what they mean and how they compare. */
  lemma Spelled(s: string)
    requires s == "2026-02-31" || s == "2026-03-03" || s == "0999-12-31" || s == "1000-01-01"
    ensures DateOnly(s)
    ensures s == "2026-02-31" ==> Parts(s) == Civil(2026, 2, 31)
    ensures s == "2026-03-03" ==> Parts(s) == Civil(2026, 3, 3)
    ensures s == "0999-12-31" ==> Parts(s) == Civil(999, 12, 31)
    ensures s == "1000-01-01" ==> Parts(s) == Civil(1000, 1, 1)
  {
  }

  /** A pattern is all the editor asks of a deadline: set to 31 February 2026, it
      is shown as 3 March, and takes responses until that day is over. */
  lemma ImpossibleDeadlineRunsOn()
    ensures DateOnly("2026-02-31") && DateOnly("2026-03-03") && !IsValidKstDateString("2026-02-31")
    ensures ToKstDateString(EndOfDay("2026-02-31")) == "2026-03-03"
    ensures AcceptsResponse("2026-02-31", EndOfDay("2026-03-03"))
  {
    hide DateOnly, Parts, UtcDay, FromDay, IsoDate, RealDate;
    var s, t := "2026-02-31", "2026-03-03";
    Spelled(s);
    Spelled(t);
    FebruaryDays();
    ShownAs(s, t);
  }

  lemma ShownAs(s: string, t: string)
    requires DateOnly(s) && DateOnly(t) && UtcDayOf(s) == UtcDayOf(t) && !RealDate(Parts(s))
    requires RealDate(Parts(t)) && Parts(t).year >= 100
    ensures !IsValidKstDateString(s) && ToKstDateString(EndOfDay(s)) == t && AcceptsResponse(s, EndOfDay(t))
  {
    hide DateOnly, Parts, FromDay, IsoDate, RealDate, UtcDayOf;
    ValidityIsRealDate(s);
    ValidityIsRealDate(t);
    DeadlineIsShownExactly(t);
  }

  lemma FebruaryDays()
    ensures UtcDay(2026, 2, 31) == UtcDay(2026, 3, 3)
    ensures !RealDate(Civil(2026, 2, 31)) && RealDate(Civil(2026, 3, 3))
  {
    hide DayFromYear;
    assert !LeapYear(2026);
  }

  /** The day after 31 December 999 prints well; the day before that one again
      does not. */
  lemma YearsLoseTheirZeros()
    ensures DateOnly("0999-12-31") && IsValidKstDateString(AddDays("0999-12-31", 1))
    ensures AddDays(AddDays("0999-12-31", 1), -1) != "0999-12-31"
  {
    hide DateOnly, Parts, UtcDay, FromDay, RealDate, AddDays, IsValidKstDateString, UtcDayOf;
    var s := "0999-12-31";
    Spelled(s);
    TurnOfMillennium(s);
    AddDaysShifts(s, 1);
    AddDaysRoundTrip(s, 1);
  }

  lemma TurnOfMillennium(s: string)
    requires DateOnly(s) && Parts(s) == Civil(999, 12, 31)
    ensures IsValidKstDateString(s) && FromDay(UtcDayOf(s) + 1) == Civil(1000, 1, 1)
  {
    hide DateOnly, Parts, FromDay, IsValidKstDateString, DayFromYear;
    ValidityIsRealDate(s);
    YearLength(999);
    assert !LeapYear(999) && !LeapYear(1000);
    FromDayOfMakeDay(Civil(1000, 1, 1));
  }
}
