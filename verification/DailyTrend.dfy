/** The daily trend of a survey's results (src/result/result.service.ts). */
module DailyTrend {
  import opened Options
  import opened Results
  import KstDate

  datatype TrendPoint = TrendPoint(date: string, count: nat)

  /** The Korean dates of the submissions. */
  function Days(sessions: seq<Session>): seq<string> {
    if sessions == [] then []
    else
      var n := |sessions| - 1;
      Days(sessions[..n])
      + match sessions[n].submittedAt case None => [] case Some(t) => [KstDate.ToKstDateString(t)]
  }

  ghost predicate Ascending(points: seq<TrendPoint>) {
    forall i, j :: 0 <= i < j < |points| ==> KstDate.LexLess(points[i].date, points[j].date)
  }

  /** One point for each day with a submission, in order, with its count. */
  ghost predicate IsTrendOf(points: seq<TrendPoint>, days: multiset<string>) {
    && Ascending(points)
    && (forall p :: p in points ==> p.count == days[p.date] > 0)
    && (forall d :: d in days ==> exists p :: p in points && p.date == d)
  }

  ghost predicate IsFirst(d: string, days: set<string>) {
    d in days && forall other :: other in days && other != d ==> KstDate.LexLess(d, other)
  }

  ghost predicate DayCounts(counts: map<string, nat>, days: multiset<string>) {
    && (forall d :: d in counts <==> d in days)
    && (forall d :: d in counts ==> counts[d] == days[d])
  }

  method CountDays(sessions: seq<Session>) returns (counts: map<string, nat>)
    ensures DayCounts(counts, multiset(Days(sessions)))
  {
    hide KstDate.ToKstDateString, DayCounts, Days;
    counts := map[];
    NoDays(sessions);
    for i := 0 to |sessions|
      invariant DayCounts(counts, multiset(Days(sessions[..i])))
    {
      NextDay(sessions, i, counts);
      if sessions[i].submittedAt == None {
        continue;
      }
      var day := KstDate.ToKstDateString(sessions[i].submittedAt.value);
      counts := counts[day := (if day in counts then counts[day] else 0) + 1];
    }
    assert sessions[..|sessions|] == sessions;
  }

  lemma NoDays(sessions: seq<Session>)
    ensures DayCounts(map[], multiset(Days(sessions[..0])))
  {
  }

  lemma NextDay(sessions: seq<Session>, i: nat, counts: map<string, nat>)
    requires i < |sessions| && DayCounts(counts, multiset(Days(sessions[..i])))
    ensures match sessions[i].submittedAt
            case None => DayCounts(counts, multiset(Days(sessions[..i + 1])))
            case Some(t) =>
              var day := KstDate.ToKstDateString(t);
              DayCounts(counts[day := (if day in counts then counts[day] else 0) + 1],
                multiset(Days(sessions[..i + 1])))
  {
    hide KstDate.ToKstDateString, DayCounts;
    assert sessions[..i + 1][..i] == sessions[..i];
    var front := Days(sessions[..i]);
    match sessions[i].submittedAt
    case None => assert front + [] == front;
    case Some(t) => CountOneMore(front, KstDate.ToKstDateString(t), counts);
  }

  lemma CountOneMore(front: seq<string>, day: string, counts: map<string, nat>)
    requires DayCounts(counts, multiset(front))
    ensures DayCounts(counts[day := (if day in counts then counts[day] else 0) + 1], multiset(front + [day]))
  {
    assert multiset(front + [day]) == multiset(front) + multiset{day};
  }

  /** buildDailyTrend: count the days, then list them in order. */
  method BuildDailyTrend(sessions: seq<Session>) returns (points: seq<TrendPoint>)
    ensures IsTrendOf(points, multiset(Days(sessions)))
  {
    hide KstDate.LexLess, Days;
    var counts := CountDays(sessions);
    ghost var days := multiset(Days(sessions));
    points := [];
    var left := counts.Keys;
    while left != {}
      invariant left <= counts.Keys
      invariant Ascending(points)
      invariant forall p :: p in points ==> p.date in counts && p.count == counts[p.date]
      invariant forall p, d :: p in points && d in left ==> KstDate.LexLess(p.date, d)
      invariant forall d :: d in counts && d !in left ==> exists p :: p in points && p.date == d
      decreases |left|
    {
      var date := TakeFirst(left);
      var point := TrendPoint(date, counts[date]);
      NextPoint(points, point, counts, left);
      points := points + [point];
      left := left - {date};
    }
  }

  method TakeFirst(days: set<string>) returns (first: string)
    requires days != {}
    ensures IsFirst(first, days)
  {
    hide KstDate.LexLess;
    var left := days;
    first :| first in left;
    left := left - {first};
    while left != {}
      invariant first in days && left <= days && first !in left
      invariant forall other :: other in days && other !in left && other != first ==> KstDate.LexLess(first, other)
      decreases |left|
    {
      var x :| x in left;
      KstDate.LexIsTotal(first, x);
      if KstDate.LexLess(x, first) {
        forall other | other in days && other !in left && other != first
          ensures KstDate.LexLess(x, other)
        {
          KstDate.LexIsTransitive(x, first, other);
        }
        first := x;
      }
      left := left - {x};
    }
  }

  lemma NextPoint(points: seq<TrendPoint>, point: TrendPoint, counts: map<string, nat>, left: set<string>)
    requires Ascending(points) && IsFirst(point.date, left)
    requires forall p, d :: p in points && d in left ==> KstDate.LexLess(p.date, d)
    requires forall d :: d in counts && d !in left ==> exists p :: p in points && p.date == d
    ensures Ascending(points + [point])
    ensures forall p, d :: p in points + [point] && d in left - {point.date} ==> KstDate.LexLess(p.date, d)
    ensures forall d :: d in counts && d !in left - {point.date} ==> exists p :: p in points + [point] && p.date == d
  {
    hide KstDate.LexLess;
    forall d | d in counts && d !in left - {point.date}
      ensures exists p :: p in points + [point] && p.date == d
    {
      if d == point.date {
        assert point in points + [point];
      } else {
        var p :| p in points && p.date == d;
        assert p in points + [point];
      }
    }
  }

  // ---------------------------------------------------------------- what the trend says

  function SumOfPoints(points: seq<TrendPoint>): nat {
    if points == [] then 0 else points[0].count + SumOfPoints(points[1..])
  }

  function SumOfDays(points: seq<TrendPoint>, days: multiset<string>): nat {
    if points == [] then 0 else days[points[0].date] + SumOfDays(points[1..], days)
  }

  predicate HasPoint(points: seq<TrendPoint>, d: string) {
    exists p :: p in points && p.date == d
  }

  lemma {:induction false} SumOfDaysAdded(points: seq<TrendPoint>, days: multiset<string>, d: string)
    requires Ascending(points)
    ensures SumOfDays(points, days + multiset{d}) == SumOfDays(points, days) + if HasPoint(points, d) then 1 else 0
  {
    hide KstDate.LexLess;
    if points != [] {
      var first, rest := points[0], points[1..];
      assert points == [first] + rest;
      assert forall i :: 0 <= i < |rest| ==> rest[i] == points[i + 1];
      SumOfDaysAdded(rest, days, d);
      KstDate.LexIsIrreflexive(d);
      assert forall p :: p in rest ==> KstDate.LexLess(first.date, p.date);
    }
  }

  lemma {:induction false} SumOfDaysIsAll(points: seq<TrendPoint>, days: seq<string>)
    requires Ascending(points) && forall i :: 0 <= i < |days| ==> HasPoint(points, days[i])
    ensures SumOfDays(points, multiset(days)) == |days|
    decreases |days|
  {
    hide Ascending, HasPoint;
    if days == [] {
      NoDaysSum(points);
    } else {
      var n := |days| - 1;
      SumOfDaysIsAll(points, days[..n]);
      assert days == days[..n] + [days[n]];
      SumOfDaysAdded(points, multiset(days[..n]), days[n]);
    }
  }

  lemma {:induction false} NoDaysSum(points: seq<TrendPoint>)
    ensures SumOfDays(points, multiset{}) == 0
  {
    if points != [] {
      NoDaysSum(points[1..]);
    }
  }

  lemma {:induction false} CountsAreDays(points: seq<TrendPoint>, days: multiset<string>)
    requires forall p :: p in points ==> p.count == days[p.date]
    ensures SumOfPoints(points) == SumOfDays(points, days)
  {
    if points != [] {
      assert points[0] in points;
      CountsAreDays(points[1..], days);
    }
  }

  lemma {:induction false} DaysOfDated(sessions: seq<Session>)
    requires forall s :: s in sessions ==> s.submittedAt.Some?
    ensures |Days(sessions)| == |sessions|
    decreases |sessions|
  {
    hide KstDate.ToKstDateString;
    if sessions != [] {
      var n := |sessions| - 1;
      assert sessions[n] in sessions;
      DaysOfDated(sessions[..n]);
    }
  }

  /** The trend's counts add up to the submitted sessions. */
  lemma TrendAddsUp(points: seq<TrendPoint>, sessions: seq<Session>)
    requires IsTrendOf(points, multiset(Days(sessions))) && forall s :: s in sessions ==> s.submittedAt.Some?
    ensures SumOfPoints(points) == |sessions|
  {
    hide KstDate.LexLess, Days;
    var days := Days(sessions);
    forall i | 0 <= i < |days|
      ensures HasPoint(points, days[i])
    {
      assert days[i] in multiset(days);
    }
    SumOfDaysIsAll(points, days);
    CountsAreDays(points, multiset(days));
    DaysOfDated(sessions);
  }

  /** The sessions submitted between two instants. */
  function SubmittedBetween(sessions: seq<Session>, from: int, to: int): nat {
    if sessions == [] then 0
    else
      var n := |sessions| - 1;
      var t := sessions[n].submittedAt;
      SubmittedBetween(sessions[..n], from, to) + if t.Some? && from <= t.value <= to then 1 else 0
  }

  /** A date's count is the number of submissions within that Korean day. */
  lemma {:induction false} DayCountIsWithinDay(sessions: seq<Session>, d: string)
    requires KstDate.IsValidKstDateString(d)
    ensures multiset(Days(sessions))[d] == SubmittedBetween(sessions, KstDate.StartOfDay(d), KstDate.EndOfDay(d))
    decreases |sessions|
  {
    hide KstDate.ToKstDateString, KstDate.IsValidKstDateString, KstDate.StartOfDay, KstDate.EndOfDay;
    if sessions != [] {
      var n := |sessions| - 1;
      var last := sessions[n];
      assert last in sessions && sessions == sessions[..n] + [last];
      DayCountIsWithinDay(sessions[..n], d);
      if last.submittedAt.Some? {
        KstDate.DateOfInstant(d, last.submittedAt.value);
      }
    }
  }
}
