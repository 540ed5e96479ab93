/** The weekly buckets of src/common/utils/kst-date.util.ts.  A week is named by
    its key, the instant its Korean Monday begins; a table lists the weeks that
    start up to six days before their key. */
module KstWeek {
  import opened Calendar
  import opened KstDate

  const WEEK_MS := 7 * DAY_MS

  datatype ExtendedWeek = ExtendedWeek(key: string, extraDaysBefore: int)

  const EXTENDED_WEEKS := [ExtendedWeek("2026-10-05", 1)]

  /** getUTCDay: 0 is Sunday. */
  function Weekday(day: int): int {
    (day + 4) % 7
  }

  function PlainKstMonday(t: int): int {
    var day := KstDay(t);
    var c := FromDay(day);
    var daysSinceMonday := (Weekday(day) + 6) % 7;
    UtcDay(c.year, c.month, c.day) * DAY_MS - daysSinceMonday * DAY_MS - KST_OFFSET_MS
  }

  /** A table the program may carry: keys are distinct Mondays. */
  ghost predicate GoodTable(table: seq<ExtendedWeek>) {
    && (forall i :: 0 <= i < |table| ==>
          IsValidKstDateString(table[i].key) && Weekday(UtcDayOf(table[i].key)) == 1
          && 0 <= table[i].extraDaysBefore <= 6)
    && (forall i, j :: 0 <= i < j < |table| ==> table[i].key != table[j].key)
  }

  /** Whether `t` is one of the days `week` was extended by. */
  predicate InExtension(week: ExtendedWeek, t: int)
    requires DateOnly(week.key)
  {
    StartOfDay(week.key) - week.extraDaysBefore * DAY_MS <= t < StartOfDay(week.key)
  }

  /** getKstWeekStart: the key of the week `t` is counted in. */
  function WeekStart(table: seq<ExtendedWeek>, t: int): int
    requires GoodTable(table)
  {
    if table == [] then PlainKstMonday(t)
    else if InExtension(table[0], t) then StartOfDay(table[0].key)
    else assert GoodTable(table[1..]); WeekStart(table[1..], t)
  }

  /** `EXTENDED_WEEKS.find((week) => week.key === key)`, as a number of days. */
  function ExtraDays(table: seq<ExtendedWeek>, key: string): int {
    if table == [] then 0
    else if table[0].key == key then table[0].extraDaysBefore
    else ExtraDays(table[1..], key)
  }

  /** The days the table adds to the week with key instant `key`. */
  function Extra(table: seq<ExtendedWeek>, key: int): int {
    ExtraDays(table, ToKstDateString(key))
  }

  function WeekRangeStart(table: seq<ExtendedWeek>, key: int): int {
    key - Extra(table, key) * DAY_MS
  }

  /** getKstWeekRange: a week lasts from its start to the start of the next one. */
  function WeekRangeEnd(table: seq<ExtendedWeek>, key: int): int {
    WeekRangeStart(table, key + WEEK_MS)
  }

  predicate InWeekRange(table: seq<ExtendedWeek>, key: int, t: int) {
    WeekRangeStart(table, key) <= t < WeekRangeEnd(table, key)
  }

  predicate MondayKey(key: int) {
    (key + KST_OFFSET_MS) % DAY_MS == 0 && Weekday(KstDay(key)) == 1
  }

  /** The years in which `Date.UTC` reads a year number as it stands. */
  predicate PlainYear(t: int) {
    !(0 <= KstYear(t) <= 99)
  }

  lemma ShippedTableIsGood()
    ensures GoodTable(EXTENDED_WEEKS)
  {
    hide FromDay, UtcDay, RealDate, IsValidKstDateString;
    ShippedKeyIsValid();
  }

  lemma ShippedKeyIsValid()
    ensures IsValidKstDateString("2026-10-05") && Weekday(UtcDayOf("2026-10-05")) == 1
  {
    hide FromDay, UtcDay, IsValidKstDateString, DaysInMonth;
    var s := "2026-10-05";
    assert DateOnly(s) && Parts(s) == Civil(2026, 10, 5);
    ValidityIsRealDate(s);
    ShippedKey();
  }

  lemma ShippedKey()
    ensures UtcDay(2026, 10, 5) == 20731 && DaysInMonth(2026, 10) == 31
  {
    assert DayFromYear(2026) == 20454;
    assert MonthStart(2026, 10) == 273 && MonthStart(2026, 11) == 304;
  }

  // ---------------------------------------------------------------- plain Mondays

  /** The Monday on or before an instant, without any calendar. */
  function MondayOf(t: int): int {
    (KstDay(t) - (Weekday(KstDay(t)) + 6) % 7) * DAY_MS - KST_OFFSET_MS
  }

  lemma MondayOfBounds(t: int)
    ensures MondayKey(MondayOf(t)) && MondayOf(t) <= t < MondayOf(t) + WEEK_MS
  {
    var n := KstDay(t);
    assert n * DAY_MS <= t + KST_OFFSET_MS < n * DAY_MS + DAY_MS;
    var m := n - (Weekday(n) + 6) % 7;
    assert Weekday(m) == 1;
    assert KstDay(MondayOf(t)) == m;
  }

  /** `plainKstMonday` finds the Monday of the instant's week exactly outside
      the years 0 to 99. */
  lemma PlainMondayIsMonday(t: int)
    ensures PlainKstMonday(t) == MondayOf(t) <==> PlainYear(t)
  {
    hide LeapYear, MonthStart, FromDay, MakeDay;
    var c := FromDay(KstDay(t));
    MakeDayOfFromDay(KstDay(t));
    if !PlainYear(t) {
      EarlyYearsAreMoved(c);
    }
  }

  /** Monday keys are whole weeks apart. */
  lemma MondayKeysAreSpaced(a: int, b: int)
    requires MondayKey(a) && MondayKey(b) && a < b
    ensures a + WEEK_MS <= b && (b != a + WEEK_MS ==> a + 2 * WEEK_MS <= b)
  {
    var m, n := KstDay(a), KstDay(b);
    assert a == m * DAY_MS - KST_OFFSET_MS && b == n * DAY_MS - KST_OFFSET_MS;
    assert m < n && (n - m) % 7 == 0;
    assert n == m + 7 || n >= m + 14;
  }

  // ---------------------------------------------------------------- the table

  lemma TailIsGood(table: seq<ExtendedWeek>)
    requires GoodTable(table) && table != []
    ensures GoodTable(table[1..])
  {
    hide IsValidKstDateString, UtcDayOf, Weekday;
    assert forall i :: 0 <= i < |table[1..]| ==> table[1..][i] == table[i + 1];
  }

  lemma KeyIsMondayKey(s: string)
    requires IsValidKstDateString(s) && Weekday(UtcDayOf(s)) == 1
    ensures MondayKey(StartOfDay(s)) && ToKstDateString(StartOfDay(s)) == s
  {
    hide UtcDay, FromDay, IsoDate;
    DayBounds(s);
  }

  lemma KeyOfDate(s: string, key: int)
    requires IsValidKstDateString(s) && MondayKey(key) && ToKstDateString(key) == s
    ensures StartOfDay(s) == key
  {
    hide UtcDay, FromDay, IsoDate;
    DateOfInstant(s, key);
  }

  lemma {:induction false} ExtraIsBounded(table: seq<ExtendedWeek>, key: int)
    requires GoodTable(table)
    ensures 0 <= Extra(table, key) <= 6
  {
    hide IsValidKstDateString, UtcDayOf, ToKstDateString;
    if table != [] {
      TailIsGood(table);
      ExtraIsBounded(table[1..], key);
    }
  }

  /** An instant the week `key` was extended by is counted in week `key`. */
  lemma {:induction false} ExtensionDecides(table: seq<ExtendedWeek>, key: int, t: int)
    requires GoodTable(table) && MondayKey(key)
    requires key - Extra(table, key) * DAY_MS <= t < key
    ensures WeekStart(table, t) == key
  {
    hide UtcDay, FromDay, IsoDate, DateOnly, ToKstDateString, Parts;
    var s := ToKstDateString(key);
    if table != [] {
      TailIsGood(table);
      var week := table[0];
      KeyIsMondayKey(week.key);
      var k := StartOfDay(week.key);
      if week.key == s {
        KeyOfDate(s, key);
      } else {
        ExtraIsBounded(table[1..], key);
        if InExtension(week, t) {
          if k < key { MondayKeysAreSpaced(k, key); }
          if key < k { MondayKeysAreSpaced(key, k); }
        }
        ExtensionDecides(table[1..], key, t);
      }
    }
  }

  /** The result is the plain Monday, or a key whose extension holds `t`. */
  lemma {:induction false} WeekStartCases(table: seq<ExtendedWeek>, t: int)
    requires GoodTable(table)
    ensures var k := WeekStart(table, t);
            k == PlainKstMonday(t) || (MondayKey(k) && k - Extra(table, k) * DAY_MS <= t < k)
    decreases |table|
  {
    hide UtcDay, FromDay, IsoDate, DateOnly, ToKstDateString, Parts, PlainKstMonday;
    if table != [] {
      TailIsGood(table);
      var week := table[0];
      KeyIsMondayKey(week.key);
      if !InExtension(week, t) {
        WeekStartCases(table[1..], t);
        var k := WeekStart(table[1..], t);
        if k != PlainKstMonday(t) && ToKstDateString(k) == week.key {
          KeyOfDate(week.key, k);
          NotListedTwice(table, ToKstDateString(k));
        }
      }
    }
  }

  lemma {:induction false} NotListedTwice(table: seq<ExtendedWeek>, s: string)
    requires GoodTable(table) && table != [] && table[0].key == s
    ensures ExtraDays(table[1..], s) == 0
  {
    assert forall i :: 0 <= i < |table[1..]| ==> table[1..][i].key == table[i + 1].key;
    AbsentHasNoExtra(table[1..], s);
  }

  lemma {:induction false} AbsentHasNoExtra(table: seq<ExtendedWeek>, s: string)
    requires forall i :: 0 <= i < |table| ==> table[i].key != s
    ensures ExtraDays(table, s) == 0
  {
    if table != [] {
      AbsentHasNoExtra(table[1..], s);
    }
  }

  // ---------------------------------------------------------------- the partition

  /** What the key of an instant is: the Monday of its week, or the next Monday
      if that week's extension reaches back to the instant. */
  lemma WeekStartMeaning(table: seq<ExtendedWeek>, t: int)
    requires GoodTable(table) && PlainYear(t)
    ensures var m := MondayOf(t);
            WeekStart(table, t) ==
              if m + WEEK_MS - Extra(table, m + WEEK_MS) * DAY_MS <= t then m + WEEK_MS else m
  {
    hide UtcDay, FromDay, IsoDate, DateOnly, ToKstDateString, Parts, PlainKstMonday, WeekStart, MondayOf, Extra,
         GoodTable;
    var m := MondayOf(t);
    MondayOfBounds(t);
    PlainMondayIsMonday(t);
    NextMonday(m);
    var next := m + WEEK_MS;
    if next - Extra(table, next) * DAY_MS <= t {
      ExtensionDecides(table, next, t);
    } else {
      WeekStartCases(table, t);
      var k := WeekStart(table, t);
      if k != m {
        ExtraIsBounded(table, k);
        MondayKeysAreSpaced(m, k);
      }
    }
  }

  lemma NextMonday(key: int)
    requires MondayKey(key)
    ensures MondayKey(key + WEEK_MS)
  {
    assert KstDay(key + WEEK_MS) == KstDay(key) + 7;
  }

  /** The week ranges partition the timeline: an instant lies in the range of a
      key exactly when the key is the one the instant is counted under. */
  lemma WeekRangesPartitionTime(table: seq<ExtendedWeek>, key: int, t: int)
    requires GoodTable(table) && MondayKey(key) && PlainYear(t)
    ensures InWeekRange(table, key, t) <==> WeekStart(table, t) == key
  {
    hide FromDay, IsoDate, ToKstDateString, PlainKstMonday, WeekStart, MondayOf, GoodTable, MondayKey, ExtraDays;
    var m := MondayOf(t);
    MondayOfBounds(t);
    WeekStartMeaning(table, t);
    NextMonday(key);
    NextMonday(m);
    ExtraIsBounded(table, key);
    ExtraIsBounded(table, key + WEEK_MS);
    ExtraIsBounded(table, m + WEEK_MS);
    ExtraIsBounded(table, m);
    if key < m {
      MondayKeysAreSpaced(key, m);
    } else if key > m {
      MondayKeysAreSpaced(m, key);
    }
  }

  /** Ranges are never empty, and each begins where the previous one ends. */
  lemma WeekRangesAbut(table: seq<ExtendedWeek>, key: int)
    requires GoodTable(table) && MondayKey(key)
    ensures WeekRangeStart(table, key) < WeekRangeEnd(table, key)
    ensures WeekRangeEnd(table, key) == WeekRangeStart(table, key + WEEK_MS)
    ensures InWeekRange(table, key, key)
  {
    hide FromDay, IsoDate, ToKstDateString, GoodTable, MondayKey, ExtraDays;
    ExtraIsBounded(table, key);
    ExtraIsBounded(table, key + WEEK_MS);
  }

  lemma WeekStartIsMondayKey(table: seq<ExtendedWeek>, t: int)
    requires GoodTable(table) && PlainYear(t)
    ensures MondayKey(WeekStart(table, t))
  {
    hide FromDay, ToKstDateString, WeekStart, MondayOf, GoodTable, MondayKey, ExtraDays;
    MondayOfBounds(t);
    WeekStartMeaning(table, t);
    NextMonday(MondayOf(t));
  }

  /** A later instant is never counted in an earlier week. */
  lemma WeekStartIsMonotone(table: seq<ExtendedWeek>, t: int, u: int)
    requires GoodTable(table) && PlainYear(t) && PlainYear(u) && t <= u
    ensures WeekStart(table, t) <= WeekStart(table, u)
  {
    hide FromDay, ToKstDateString, WeekStart, MondayOf, GoodTable, MondayKey, ExtraDays;
    MondayOfBounds(t);
    MondayOfBounds(u);
    WeekStartMeaning(table, t);
    WeekStartMeaning(table, u);
    if MondayOf(u) < MondayOf(t) { MondayKeysAreSpaced(MondayOf(u), MondayOf(t)); }
    if MondayOf(t) < MondayOf(u) { MondayKeysAreSpaced(MondayOf(t), MondayOf(u)); }
  }

  /** A week's key is counted in its own week. */
  lemma WeekStartIsIdempotent(table: seq<ExtendedWeek>, t: int)
    requires GoodTable(table) && PlainYear(t) && PlainYear(WeekStart(table, t))
    ensures WeekStart(table, WeekStart(table, t)) == WeekStart(table, t)
  {
    hide FromDay, ToKstDateString, WeekStart, GoodTable, MondayKey, ExtraDays, InWeekRange;
    var k := WeekStart(table, t);
    WeekStartIsMondayKey(table, t);
    WeekRangesAbut(table, k);
    WeekRangesPartitionTime(table, k, k);
  }

  /** getKstWeekStart and getKstWeekRange with the table the program ships. */
  function GetKstWeekStart(t: int): int {
    ShippedTableIsGood();
    WeekStart(EXTENDED_WEEKS, t)
  }

  function GetKstWeekEnd(key: int): int {
    WeekRangeEnd(EXTENDED_WEEKS, key)
  }

  lemma ShippedExtra(key: int)
    requires (key + KST_OFFSET_MS) % DAY_MS == 0
    ensures DateOnly("2026-10-05")
    ensures Extra(EXTENDED_WEEKS, key) == if key == StartOfDay("2026-10-05") then 1 else 0
  {
    hide IsValidKstDateString, UtcDayOf, ToKstDateString, DateOnly;
    ShippedKeyIsValid();
    ShippedExtraOf(ToKstDateString(key));
    assert DateOnly("2026-10-05") by { ValidIsDateOnly("2026-10-05"); }
    DateOfInstant("2026-10-05", key);
  }

  lemma ValidIsDateOnly(s: string)
    requires IsValidKstDateString(s)
    ensures DateOnly(s)
  {
  }

  lemma ShippedExtraOf(s: string)
    ensures ExtraDays(EXTENDED_WEEKS, s) == if s == "2026-10-05" then 1 else 0
  {
    assert EXTENDED_WEEKS[1..] == [];
  }

  /** Every week starts at its key and lasts seven days, apart from the one of
      5 October 2026, which starts a day early and lasts eight, and the one before
      it, which lasts six. */
  lemma WeekLengths(key: int)
    requires MondayKey(key)
    ensures DateOnly("2026-10-05")
    ensures var extended := StartOfDay("2026-10-05");
            && WeekRangeStart(EXTENDED_WEEKS, key) == (if key == extended then key - 24 * 60 * 60 * 1000 else key)
            && WeekRangeEnd(EXTENDED_WEEKS, key) - WeekRangeStart(EXTENDED_WEEKS, key)
               == (if key == extended then 8 else if key == extended - 7 * 24 * 60 * 60 * 1000 then 6 else 7)
                  * 24 * 60 * 60 * 1000
  {
    hide Extra, Weekday, StartOfDay, DateOnly;
    ShippedExtra(key);
    assert (key + WEEK_MS + KST_OFFSET_MS) % DAY_MS == 0;
    ShippedExtra(key + WEEK_MS);
  }

  /** So 4 October 2026 is counted with the seven days after it. */
  lemma ExtendedWeekHasEightDays(t: int)
    requires PlainYear(t)
    ensures DateOnly("2026-10-05")
    ensures var key := StartOfDay("2026-10-05");
            GetKstWeekStart(t) == key
            <==> key - 24 * 60 * 60 * 1000 <= t < key + 7 * 24 * 60 * 60 * 1000
  {
    hide DateOnly, WeekStart, GoodTable, KstYear, MondayKey, StartOfDay, WeekRangeStart, WeekRangeEnd, EXTENDED_WEEKS,
         ExtraDays;
    ShippedMonday("2026-10-05");
    ShippedTableIsGood();
    var key := StartOfDay("2026-10-05");
    WeekLengths(key);
    WeekRangesPartitionTime(EXTENDED_WEEKS, key, t);
  }

  lemma ShippedMonday(s: string)
    requires s == "2026-10-05"
    ensures DateOnly(s) && MondayKey(StartOfDay(s))
  {
    hide UtcDayOf, DateOnly, IsValidKstDateString, Weekday;
    ShippedKeyIsValid();
    ValidIsDateOnly(s);
    StartIsMidnight(s);
  }

  lemma StartIsMidnight(s: string)
    requires DateOnly(s)
    ensures (StartOfDay(s) + KST_OFFSET_MS) % DAY_MS == 0 && KstDay(StartOfDay(s)) == UtcDayOf(s)
  {
    hide UtcDayOf, DateOnly;
  }

  // ---------------------------------------------------------------- week names

  datatype ParsedWeek = NotAWeek | WeekKey(start: int)

  /** src/admin/admin-ranking.util.ts: any day of a week names the week. */
  function ParseWeekKey(table: seq<ExtendedWeek>, input: string): ParsedWeek
    requires GoodTable(table)
  {
    if IsValidKstDateString(input) then WeekKey(WeekStart(table, StartOfDay(input))) else NotAWeek
  }

  function ToWeekKey(start: int): string {
    ToKstDateString(start)
  }

  /** The name given to a week parses back to the key of that week. */
  lemma WeekNameRoundTrip(table: seq<ExtendedWeek>, t: int)
    requires GoodTable(table) && 100 <= KstYear(t)
    requires 100 <= KstYear(WeekStart(table, t)) <= 9999
    ensures ParseWeekKey(table, ToWeekKey(WeekStart(table, t))) == WeekKey(WeekStart(table, t))
  {
    hide FromDay, IsoDate, WeekStart, GoodTable, ExtraDays, InWeekRange, DateOnly;
    var k := WeekStart(table, t);
    WeekStartIsMondayKey(table, t);
    PartsOfIsoDate(FromDay(KstDay(k)));
    ValidityIsRealDate(ToWeekKey(k));
    KeyOfDate(ToWeekKey(k), k);
    WeekStartIsIdempotent(table, t);
  }

  /** Instants from 1970 on lie in plain years. */
  lemma ModernYearsArePlain(t: int)
    requires t >= 0
    ensures PlainYear(t)
  {
    hide DayFromYear, MonthStart;
    var y := KstYear(t);
    EpochYear();
    if y < 1970 {
      YearsAreOrdered(y, 1970);
      YearLength(y);
    }
  }
}
