/** The cursor of the survey list (src/survey/survey-cursor.util.ts), before the
    base64url step: a publication time in ISO form, a bar and an id. */
module Cursor {
  import opened Options
  import opened Calendar
  import opened KstDate

  /** The position of a survey in the list. */
  datatype Position = Position(publishedAt: int, id: string)

  const HOUR_MS := 60 * 60 * 1000
  const MINUTE_MS := 60 * 1000
  const SECOND_MS := 1000

  predicate HasIsoTime(t: int) {
    0 <= FromDay(t / DAY_MS).year <= 9999
  }

  function Pad3(n: int): string
    requires 0 <= n <= 999
  {
    [Digit(n / 100), Digit(n / 10 % 10), Digit(n % 10)]
  }

  function ClockTime(ms: int): string
    requires 0 <= ms < DAY_MS
  {
    Pad2(ms / HOUR_MS) + ":" + Pad2(ms / MINUTE_MS % 60) + ":" + Pad2(ms / SECOND_MS % 60) + "." + Pad3(ms % SECOND_MS)
  }

  /** toISOString, for the years 0 to 9999. */
  function IsoTime(t: int): string
    requires HasIsoTime(t)
  {
    IsoDate(FromDay(t / DAY_MS)) + "T" + ClockTime(t % DAY_MS) + "Z"
  }

  predicate IsClockTime(s: string) {
    && |s| == 12 && s[2] == ':' && s[5] == ':' && s[8] == '.'
    && IsDigit(s[0]) && IsDigit(s[1]) && IsDigit(s[3]) && IsDigit(s[4]) && IsDigit(s[6]) && IsDigit(s[7])
    && IsDigit(s[9]) && IsDigit(s[10]) && IsDigit(s[11])
    && TwoDigits(s, 0) < 24 && TwoDigits(s, 3) < 60 && TwoDigits(s, 6) < 60
  }

  function TwoDigits(s: string, i: nat): int
    requires i + 1 < |s| && IsDigit(s[i]) && IsDigit(s[i + 1])
  {
    10 * Value(s[i]) + Value(s[i + 1])
  }

  function ClockMs(s: string): int
    requires IsClockTime(s)
  {
    TwoDigits(s, 0) * HOUR_MS + TwoDigits(s, 3) * MINUTE_MS + TwoDigits(s, 6) * SECOND_MS
    + 100 * Value(s[9]) + TwoDigits(s, 10)
  }

  /** `new Date(s)` on strings in the form toISOString writes. */
  function ParseIsoTime(s: string): Option<int> {
    if |s| == 24 && DateOnly(s[..10]) && RealDate(Parts(s[..10]))
       && s[10] == 'T' && IsClockTime(s[11..23]) && s[23] == 'Z'
    then
      var c := Parts(s[..10]);
      Some(MakeDay(c.year, c.month, c.day) * DAY_MS + ClockMs(s[11..23]))
    else None
  }

  /** The part of a string before the first bar. */
  function UntilBar(s: string): string {
    if s == [] || s[0] == '|' then [] else [s[0]] + UntilBar(s[1..])
  }

  /** The part after the first bar; `split` gives nothing when there is none. */
  function AfterBar(s: string): Option<string> {
    if s == [] then None else if s[0] == '|' then Some(s[1..]) else AfterBar(s[1..])
  }

  function Encode(p: Position): string
    requires HasIsoTime(p.publishedAt)
  {
    IsoTime(p.publishedAt) + "|" + p.id
  }

  /** decodeSurveyCursor; None where it throws. */
  function Decode(cursor: string): Option<Position> {
    var rest := AfterBar(cursor);
    var publishedAt := ParseIsoTime(UntilBar(cursor));
    if publishedAt == None || rest == None || UntilBar(rest.value) == [] then None
    else Some(Position(publishedAt.value, UntilBar(rest.value)))
  }

  // ---------------------------------------------------------------- decoding inverts encoding

  lemma ClockTimeIsReadBack(ms: int)
    requires 0 <= ms < DAY_MS
    ensures IsClockTime(ClockTime(ms)) && ClockMs(ClockTime(ms)) == ms
  {
    var h, m, s, rest := ms / HOUR_MS, ms / MINUTE_MS % 60, ms / SECOND_MS % 60, ms % SECOND_MS;
    ClockParts(ms);
    assert ClockTime(ms) == [Digit(h / 10), Digit(h % 10), ':', Digit(m / 10), Digit(m % 10), ':',
                             Digit(s / 10), Digit(s % 10), '.', Digit(rest / 100), Digit(rest / 10 % 10),
                             Digit(rest % 10)];
    assert rest == 100 * (rest / 100) + 10 * (rest / 10 % 10) + rest % 10 by {
      assert rest / 10 / 10 == rest / 100;
    }
  }

  lemma ClockParts(ms: int)
    requires 0 <= ms < DAY_MS
    ensures 0 <= ms / HOUR_MS < 24
    ensures ms == ms / HOUR_MS * HOUR_MS + ms / MINUTE_MS % 60 * MINUTE_MS + ms / SECOND_MS % 60 * SECOND_MS
            + ms % SECOND_MS
  {
    assert ms / SECOND_MS / 60 == ms / MINUTE_MS;
    assert ms / MINUTE_MS / 60 == ms / HOUR_MS;
  }

  lemma IsoTimeIsReadBack(t: int)
    requires HasIsoTime(t)
    ensures ParseIsoTime(IsoTime(t)) == Some(t)
  {
    hide FromDay, MakeDay, IsoDate, ClockTime, IsClockTime, ClockMs, DateOnly, Parts, RealDate;
    var day, clock := IsoDate(FromDay(t / DAY_MS)), ClockTime(t % DAY_MS);
    PartsOfIsoDate(FromDay(t / DAY_MS));
    MakeDayOfFromDay(t / DAY_MS);
    ClockTimeIsReadBack(t % DAY_MS);
    TextLengths(t);
    var s := IsoTime(t);
    assert s[..10] == day && s[11..23] == clock;
  }

  lemma TextLengths(t: int)
    requires HasIsoTime(t)
    ensures |IsoDate(FromDay(t / DAY_MS))| == 10 && |ClockTime(t % DAY_MS)| == 12
  {
    hide FromDay;
    PartsOfIsoDate(FromDay(t / DAY_MS));
  }

  predicate HasBar(s: string) {
    exists i :: 0 <= i < |s| && s[i] == '|'
  }

  lemma NoBarInConcat(a: string, b: string)
    requires !HasBar(a) && !HasBar(b)
    ensures !HasBar(a + b)
  {
    forall i | 0 <= i < |a + b|
      ensures (a + b)[i] != '|'
    {
      assert (a + b)[i] == if i < |a| then a[i] else b[i - |a|];
    }
  }

  lemma DateHasNoBar(s: string)
    requires DateOnly(s)
    ensures !HasBar(s)
  {
  }

  lemma ClockHasNoBar(s: string)
    requires IsClockTime(s)
    ensures !HasBar(s)
  {
    hide TwoDigits;
  }

  lemma IsoTimeHasNoBar(t: int)
    requires HasIsoTime(t)
    ensures !HasBar(IsoTime(t)) && |IsoTime(t)| == 24
  {
    hide FromDay, MakeDay, IsoDate, ClockTime, RealDate, DateOnly, IsClockTime;
    var day, clock := IsoDate(FromDay(t / DAY_MS)), ClockTime(t % DAY_MS);
    PartsOfIsoDate(FromDay(t / DAY_MS));
    ClockTimeIsReadBack(t % DAY_MS);
    TextLengths(t);
    DateHasNoBar(day);
    ClockHasNoBar(clock);
    assert !HasBar("T") && !HasBar("Z");
    hide HasBar;
    NoBarInConcat(day, "T");
    NoBarInConcat(day + "T", clock);
    NoBarInConcat(day + "T" + clock, "Z");
  }

  lemma {:induction false} SplitAtBar(front: string, rest: string)
    requires !HasBar(front)
    ensures UntilBar(front + "|" + rest) == front && AfterBar(front + "|" + rest) == Some(rest)
  {
    if front == [] {
      assert [] + "|" + rest == "|" + rest;
    } else {
      assert front[0] != '|';
      NoBarInRest(front);
      SplitAtBar(front[1..], rest);
      assert (front + "|" + rest)[1..] == front[1..] + "|" + rest;
      assert front == [front[0]] + front[1..];
    }
  }

  lemma NoBarInRest(s: string)
    requires s != [] && !HasBar(s)
    ensures !HasBar(s[1..])
  {
    assert forall i :: 0 <= i < |s[1..]| ==> s[1..][i] == s[i + 1];
  }

  lemma {:induction false} UntilBarMeaning(s: string)
    ensures UntilBar(s) == s <==> !HasBar(s)
  {
    if s != [] {
      UntilBarMeaning(s[1..]);
      assert s == [s[0]] + s[1..];
      if s[0] == '|' {
        assert HasBar(s);
      } else {
        if !HasBar(s) { NoBarInRest(s); }
        if HasBar(s[1..]) {
          var i :| 0 <= i < |s[1..]| && s[1..][i] == '|';
          assert s[i + 1] == '|';
        }
      }
    }
  }

  /** A cursor is read back as it was written exactly when the id is not empty
      and holds no bar, which UUIDs never do. */
  lemma DecodeInvertsEncode(p: Position)
    requires HasIsoTime(p.publishedAt)
    ensures Decode(Encode(p)) == Some(p) <==> p.id != "" && !HasBar(p.id)
  {
    hide HasBar, HasIsoTime, IsoTime, UntilBar, AfterBar, ParseIsoTime;
    IsoTimeIsReadBack(p.publishedAt);
    IsoTimeHasNoBar(p.publishedAt);
    SplitAtBar(IsoTime(p.publishedAt), p.id);
    UntilBarMeaning(p.id);
  }

  // ---------------------------------------------------------------- what is decoded at all

  lemma ClockDigits(h: int, m: int, s: int, rest: int)
    requires 0 <= h < 24 && 0 <= m < 60 && 0 <= s < 60 && 0 <= rest < 1000
    ensures var ms := h * HOUR_MS + m * MINUTE_MS + s * SECOND_MS + rest;
            && 0 <= ms < DAY_MS && ms / HOUR_MS == h && ms / MINUTE_MS % 60 == m
            && ms / SECOND_MS % 60 == s && ms % SECOND_MS == rest
  {
    var ms := h * HOUR_MS + m * MINUTE_MS + s * SECOND_MS + rest;
    assert ms / SECOND_MS == (h * 60 + m) * 60 + s;
    assert ms / MINUTE_MS == h * 60 + m;
  }

  lemma Pad2OfTwoDigits(s: string, i: nat)
    requires i + 1 < |s| && IsDigit(s[i]) && IsDigit(s[i + 1])
    ensures 0 <= TwoDigits(s, i) <= 99 && Pad2(TwoDigits(s, i)) == s[i..i + 2]
  {
    Pad2OfDigits(s[i], s[i + 1]);
  }

  lemma Pad3OfDigits(a: char, b: char, c: char)
    requires IsDigit(a) && IsDigit(b) && IsDigit(c)
    ensures Pad3(100 * Value(a) + 10 * Value(b) + Value(c)) == [a, b, c]
  {
    var n := 100 * Value(a) + 10 * Value(b) + Value(c);
    assert n / 10 == 10 * Value(a) + Value(b) && n / 100 == Value(a);
  }

  lemma ClockIsWritten(s: string)
    requires IsClockTime(s)
    ensures 0 <= ClockMs(s) < DAY_MS && ClockTime(ClockMs(s)) == s
  {
    var rest := 100 * Value(s[9]) + 10 * Value(s[10]) + Value(s[11]);
    ClockDigits(TwoDigits(s, 0), TwoDigits(s, 3), TwoDigits(s, 6), rest);
    assert ClockMs(s)
        == TwoDigits(s, 0) * HOUR_MS + TwoDigits(s, 3) * MINUTE_MS + TwoDigits(s, 6) * SECOND_MS + rest;
    Pad2OfTwoDigits(s, 0);
    Pad2OfTwoDigits(s, 3);
    Pad2OfTwoDigits(s, 6);
    Pad3OfDigits(s[9], s[10], s[11]);
    hide Pad2, Pad3, TwoDigits, ClockMs;
    assert s == s[0..2] + ":" + s[3..5] + ":" + s[6..8] + "." + [s[9], s[10], s[11]];
  }

  lemma IsoTimeAt(day: int, ms: int, t: int)
    requires t / DAY_MS == day && t % DAY_MS == ms && 0 <= FromDay(day).year <= 9999
    ensures HasIsoTime(t) && IsoTime(t) == IsoDate(FromDay(day)) + "T" + ClockTime(ms) + "Z"
  {
    hide FromDay, ClockTime, IsoDate;
  }

  lemma TimeOfParts(c: Civil, clock: string, t: int)
    requires RealDate(c) && 0 <= c.year <= 9999 && IsClockTime(clock)
    requires t == MakeDay(c.year, c.month, c.day) * DAY_MS + ClockMs(clock)
    ensures HasIsoTime(t) && IsoTime(t) == IsoDate(c) + "T" + clock + "Z"
  {
    hide MakeDay, FromDay, ClockTime, ClockMs, IsoDate, IsClockTime, RealDate, HasIsoTime, IsoTime;
    ClockIsWritten(clock);
    FromDayOfMakeDay(c);
    DayAndClock(MakeDay(c.year, c.month, c.day), ClockMs(clock));
    IsoTimeAt(MakeDay(c.year, c.month, c.day), ClockMs(clock), t);
  }

  /** Only text that toISOString writes is read as a time. */
  lemma ParsedTimeIsWritten(s: string)
    requires ParseIsoTime(s).Some?
    ensures HasIsoTime(ParseIsoTime(s).value) && IsoTime(ParseIsoTime(s).value) == s
  {
    hide MakeDay, ClockMs, IsoDate, Parts, DateOnly, IsClockTime, RealDate, IsoTime, HasIsoTime;
    TimeOfParts(Parts(s[..10]), s[11..23], ParseIsoTime(s).value);
    IsoDateOfParts(s[..10]);
    TextInParts(s);
  }

  lemma DayAndClock(day: int, ms: int)
    requires 0 <= ms < DAY_MS
    ensures (day * DAY_MS + ms) / DAY_MS == day && (day * DAY_MS + ms) % DAY_MS == ms
  {
  }

  lemma TextInParts(s: string)
    requires |s| == 24 && s[10] == 'T' && s[23] == 'Z'
    ensures s == s[..10] + "T" + s[11..23] + "Z"
  {
  }

  lemma {:induction false} BarSplits(s: string)
    ensures !HasBar(UntilBar(s))
    ensures s == match AfterBar(s) case None => UntilBar(s) case Some(rest) => UntilBar(s) + "|" + rest
  {
    if s != [] && s[0] != '|' {
      BarSplits(s[1..]);
      assert s == [s[0]] + s[1..];
    }
  }

  /** A cursor is read as a position exactly when it is what is written for it, or
      that with another bar and anything after it. */
  lemma DecodedExactly(cursor: string, p: Position)
    ensures Decode(cursor) == Some(p)
       <==> && HasIsoTime(p.publishedAt) && p.id != "" && !HasBar(p.id)
            && (cursor == Encode(p) || exists rest :: cursor == Encode(p) + "|" + rest)
  {
    hide HasBar, HasIsoTime, IsoTime, UntilBar, AfterBar, ParseIsoTime;
    if Decode(cursor) == Some(p) {
      BarSplits(cursor);
      var id := AfterBar(cursor).value;
      BarSplits(id);
      ParsedTimeIsWritten(UntilBar(cursor));
      if AfterBar(id).Some? {
        var rest := AfterBar(id).value;
        assert cursor == Encode(p) + "|" + rest;
      }
    }
    if HasIsoTime(p.publishedAt) && p.id != "" && !HasBar(p.id) {
      DecodeInvertsEncode(p);
      if rest :| cursor == Encode(p) + "|" + rest {
        DecodeIgnoresMore(p, rest);
        assert Encode(p) + "|" + rest == IsoTime(p.publishedAt) + "|" + (p.id + "|" + rest);
      }
    }
  }

  lemma DecodeIgnoresMore(p: Position, rest: string)
    requires HasIsoTime(p.publishedAt) && p.id != "" && !HasBar(p.id)
    ensures Decode(IsoTime(p.publishedAt) + "|" + (p.id + "|" + rest)) == Some(p)
  {
    hide HasBar, HasIsoTime, IsoTime, UntilBar, AfterBar, ParseIsoTime;
    IsoTimeIsReadBack(p.publishedAt);
    IsoTimeHasNoBar(p.publishedAt);
    SplitAtBar(IsoTime(p.publishedAt), p.id + "|" + rest);
    SplitAtBar(p.id, rest);
  }
}
