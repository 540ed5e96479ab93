/** The paged list of recruiting surveys (src/survey/survey.service.ts): following
    the cursors from the first page on. */
module Paging {
  import opened Options
  import opened Cursor
  import KstDate
  import Calendar

  /** A survey as the list query sees it. */
  datatype Row = Row(id: string, publishedAt: Option<int>)

  /** `ORDER BY "publishedAt" DESC, "id" DESC`; PostgreSQL puts nulls first. */
  predicate Before(a: Row, b: Row) {
    if a.publishedAt == None then b.publishedAt.Some? || KstDate.LexLess(b.id, a.id)
    else
      && b.publishedAt.Some?
      && (a.publishedAt.value > b.publishedAt.value
          || (a.publishedAt.value == b.publishedAt.value && KstDate.LexLess(b.id, a.id)))
  }

  /** The condition a cursor adds to the query; it never holds of a null. */
  predicate IsAfter(row: Row, p: Position) {
    && row.publishedAt.Some?
    && (row.publishedAt.value < p.publishedAt
        || (row.publishedAt.value == p.publishedAt && KstDate.LexLess(row.id, p.id)))
  }

  function RowsAfter(rows: seq<Row>, p: Position): seq<Row> {
    if rows == [] then []
    else if IsAfter(rows[0], p) then [rows[0]] + RowsAfter(rows[1..], p)
    else RowsAfter(rows[1..], p)
  }

  /** An id is a UUID, and times are of four-digit years. */
  predicate IsListed(row: Row) {
    row.id != "" && !HasBar(row.id) && (row.publishedAt.Some? ==> HasIsoTime(row.publishedAt.value))
  }

  /** The recruiting surveys that match the filters, in list order. */
  ghost predicate InListOrder(rows: seq<Row>) {
    && (forall i :: 0 <= i < |rows| ==> IsListed(rows[i]))
    && (forall i, j :: 0 <= i < j < |rows| ==> Before(rows[i], rows[j]))
  }

  datatype Page = Page(items: seq<Row>, nextCursor: Option<string>)

  /** The rows the query may return; an empty cursor is no cursor. */
  function Matching(rows: seq<Row>, cursor: Option<string>): Option<seq<Row>> {
    if cursor == None || cursor.value == "" then Some(rows)
    else
      match Decode(cursor.value)
      case None => None
      case Some(p) => Some(RowsAfter(rows, p))
  }

  /** listRecruiting; None where the cursor is turned down. */
  function ListRecruiting(rows: seq<Row>, limit: nat, cursor: Option<string>): Option<Page>
    requires limit >= 1 && forall i :: 0 <= i < |rows| ==> IsListed(rows[i])
  {
    match Matching(rows, cursor)
    case None => None
    case Some(matching) =>
      KeepsListed(rows, cursor);
      var found := if |matching| > limit + 1 then matching[..limit + 1] else matching;
      var hasMore := |found| > limit;
      var page := if hasMore then found[..limit] else found;
      Some(Page(page,
                if hasMore && page[limit - 1].publishedAt.Some? then Some(Encode(PositionOf(page[limit - 1])))
                  else None))
  }

  function PositionOf(row: Row): Position
    requires row.publishedAt.Some?
  {
    Position(row.publishedAt.value, row.id)
  }

  lemma {:induction false} RowsAfterAreRows(rows: seq<Row>, p: Position)
    ensures forall row :: row in RowsAfter(rows, p) ==> row in rows && IsAfter(row, p)
  {
    if rows != [] {
      RowsAfterAreRows(rows[1..], p);
    }
  }

  lemma KeepsListed(rows: seq<Row>, cursor: Option<string>)
    requires forall i :: 0 <= i < |rows| ==> IsListed(rows[i])
    ensures var matching := Matching(rows, cursor);
            matching.Some? ==> forall i :: 0 <= i < |matching.value| ==> IsListed(matching.value[i])
  {
    hide IsListed, Decode, IsAfter;
    var matching := Matching(rows, cursor);
    if matching.Some? && cursor.Some? && cursor.value != "" {
      RowsAfterAreRows(rows, Decode(cursor.value).value);
      forall i | 0 <= i < |matching.value|
        ensures IsListed(matching.value[i])
      {
        assert matching.value[i] in rows;
      }
    }
  }

  /** The order of the list: surveys without a publication time first, then the
      latest published, and those published together by id from the greatest down. */
  lemma NewestFirst(rows: seq<Row>, i: nat, j: nat)
    requires InListOrder(rows) && i < j < |rows|
    ensures rows[i].publishedAt == None || rows[j].publishedAt.Some?
    ensures rows[i].publishedAt.Some? && rows[j].publishedAt.Some? ==>
              rows[i].publishedAt.value >= rows[j].publishedAt.value
    ensures rows[i].publishedAt == rows[j].publishedAt ==> KstDate.LexLess(rows[j].id, rows[i].id)
  {
    hide KstDate.LexLess, IsListed;
    assert Before(rows[i], rows[j]);
  }

  /** A cursor keeps the rows published before its position, or together with it
      but with a smaller id. */
  lemma {:induction false} RowsAfterExactly(rows: seq<Row>, p: Position, row: Row)
    ensures row in RowsAfter(rows, p)
       <==> && row in rows && row.publishedAt.Some?
            && (row.publishedAt.value < p.publishedAt
                || (row.publishedAt.value == p.publishedAt && KstDate.LexLess(row.id, p.id)))
  {
    hide KstDate.LexLess;
    if rows != [] {
      RowsAfterExactly(rows[1..], p, row);
      assert rows == [rows[0]] + rows[1..];
    }
  }

  // ---------------------------------------------------------------- what a cursor leaves

  lemma BeforeMeansAfterCursor(a: Row, b: Row)
    requires Before(a, b) && a.publishedAt.Some?
    ensures IsAfter(b, PositionOf(a))
  {
  }

  lemma BeforeIsNotAfter(a: Row, b: Row)
    requires b.publishedAt.Some? && (a == b || Before(a, b))
    ensures !IsAfter(a, PositionOf(b))
  {
    hide KstDate.LexLess;
    KstDate.LexIsIrreflexive(a.id);
    if KstDate.LexLess(b.id, a.id) && KstDate.LexLess(a.id, b.id) {
      KstDate.LexIsTransitive(a.id, b.id, a.id);
      assert false;
    }
  }

  lemma {:induction false} AllAfter(rows: seq<Row>, p: Position)
    requires forall i :: 0 <= i < |rows| ==> IsAfter(rows[i], p)
    ensures RowsAfter(rows, p) == rows
  {
    hide IsAfter;
    if rows != [] {
      assert forall i :: 0 <= i < |rows[1..]| ==> rows[1..][i] == rows[i + 1];
      AllAfter(rows[1..], p);
    }
  }

  /** The cursor made from a row leaves exactly the rows that follow it. */
  lemma {:induction false} CursorContinues(rows: seq<Row>, i: nat)
    requires InListOrder(rows) && i < |rows| && rows[i].publishedAt.Some?
    ensures RowsAfter(rows, PositionOf(rows[i])) == rows[i + 1..]
  {
    hide IsAfter, Before, IsListed;
    var p, rest := PositionOf(rows[i]), rows[1..];
    assert forall j :: 0 <= j < |rest| ==> rest[j] == rows[j + 1];
    BeforeIsNotAfter(rows[0], rows[i]);
    if i == 0 {
      forall j | 0 <= j < |rest|
        ensures IsAfter(rest[j], p)
      {
        BeforeMeansAfterCursor(rows[0], rows[j + 1]);
      }
      AllAfter(rest, p);
    } else {
      assert InListOrder(rest);
      CursorContinues(rest, i - 1);
      assert rest[i..] == rows[i + 1..];
    }
  }

  lemma AfterPassesOn(a: Row, b: Row, p: Position)
    requires Before(a, b) && IsAfter(a, p)
    ensures IsAfter(b, p)
  {
    hide KstDate.LexLess;
    if KstDate.LexLess(b.id, a.id) && KstDate.LexLess(a.id, p.id) {
      KstDate.LexIsTransitive(b.id, a.id, p.id);
    }
  }

  /** Whatever the cursor, it leaves a tail of the list. */
  lemma {:induction false} CursorLeavesTail(rows: seq<Row>, p: Position)
    requires InListOrder(rows)
    ensures |RowsAfter(rows, p)| <= |rows| && RowsAfter(rows, p) == rows[|rows| - |RowsAfter(rows, p)|..]
  {
    hide IsAfter, Before, IsListed;
    if rows != [] {
      var rest := rows[1..];
      assert forall j :: 0 <= j < |rest| ==> rest[j] == rows[j + 1];
      if IsAfter(rows[0], p) {
        forall j | 0 <= j < |rest|
          ensures IsAfter(rest[j], p)
        {
          AfterPassesOn(rows[0], rows[j + 1], p);
        }
        AllAfter(rest, p);
      } else {
        CursorLeavesTail(rest, p);
      }
    }
  }

  /** The cursor a page of the rows `left` ends with. */
  function CursorAfter(left: seq<Row>, limit: nat): (cursor: Option<string>)
    requires limit >= 1 && forall i :: 0 <= i < |left| ==> IsListed(left[i])
    ensures cursor.Some? <==> |left| > limit && left[limit - 1].publishedAt.Some?
  {
    hide HasIsoTime, HasBar;
    if |left| > limit && left[limit - 1].publishedAt.Some? then
      assert IsListed(left[limit - 1]);
      Some(Encode(PositionOf(left[limit - 1])))
    else None
  }

  /** The extra row asked for only tells whether more follow. */
  lemma PageOfMatching(rows: seq<Row>, limit: nat, cursor: Option<string>, left: seq<Row>)
    requires limit >= 1 && forall i :: 0 <= i < |rows| ==> IsListed(rows[i])
    requires Matching(rows, cursor) == Some(left) && forall i :: 0 <= i < |left| ==> IsListed(left[i])
    ensures ListRecruiting(rows, limit, cursor)
         == Some(Page(if |left| > limit then left[..limit] else left, CursorAfter(left, limit)))
  {
    hide Matching, IsListed, Encode;
    if |left| > limit + 1 {
      assert left[..limit + 1][..limit] == left[..limit];
    }
  }

  /** What a page's cursor leaves of the rows that were left before. */
  lemma NextCursorContinues(rows: seq<Row>, start: nat, limit: nat)
    requires InListOrder(rows) && start <= |rows| && limit >= 1
    ensures forall i :: 0 <= i < |rows[start..]| ==> IsListed(rows[start..][i])
    ensures var cursor := CursorAfter(rows[start..], limit);
            cursor.Some? ==> Matching(rows, cursor) == Some(rows[start + limit..])
  {
    hide InListOrder, IsListed, Matching, HasIsoTime, Encode;
    TailIsListed(rows, start);
    if CursorAfter(rows[start..], limit).Some? {
      assert rows[start..][limit - 1] == rows[start + limit - 1];
      CursorMatches(rows, start + limit - 1);
    }
  }

  lemma TailIsListed(rows: seq<Row>, start: nat)
    requires InListOrder(rows) && start <= |rows|
    ensures forall i :: 0 <= i < |rows| ==> IsListed(rows[i])
    ensures forall i :: 0 <= i < |rows[start..]| ==> IsListed(rows[start..][i])
  {
    hide Before, IsListed;
  }

  lemma CursorMatches(rows: seq<Row>, i: nat)
    requires InListOrder(rows) && i < |rows| && rows[i].publishedAt.Some?
    ensures HasIsoTime(rows[i].publishedAt.value)
    ensures Matching(rows, Some(Encode(PositionOf(rows[i])))) == Some(rows[i + 1..])
  {
    hide Before, RowsAfter, Encode, Decode, HasBar, HasIsoTime;
    RowCursorIsReadBack(rows[i]);
    CursorContinues(rows, i);
  }

  lemma RowCursorIsReadBack(row: Row)
    requires IsListed(row) && row.publishedAt.Some?
    ensures HasIsoTime(row.publishedAt.value)
    ensures Encode(PositionOf(row)) != "" && Decode(Encode(PositionOf(row))) == Some(PositionOf(row))
  {
    hide IsoTime, Decode, HasBar, HasIsoTime;
    DecodeInvertsEncode(PositionOf(row));
  }

  // ---------------------------------------------------------------- following the cursors

  /** The rows a cursor leaves. */
  ghost function Left(rows: seq<Row>, cursor: Option<string>): seq<Row> {
    Matching(rows, cursor).GetOr([])
  }

  ghost function PageOf(rows: seq<Row>, limit: nat, cursor: Option<string>): Page
    requires InListOrder(rows) && limit >= 1 && Matching(rows, cursor).Some?
  {
    ListRecruiting(rows, limit, cursor).value
  }

  lemma LeftIsTail(rows: seq<Row>, cursor: Option<string>)
    requires InListOrder(rows) && Matching(rows, cursor).Some?
    ensures |Left(rows, cursor)| <= |rows| && Left(rows, cursor) == rows[|rows| - |Left(rows, cursor)|..]
  {
    hide InListOrder, RowsAfter, Decode;
    if cursor != None && cursor.value != "" {
      CursorLeavesTail(rows, Decode(cursor.value).value);
    }
  }

  /** A page shows the next rows and its cursor leaves the others. */
  lemma PageContinues(rows: seq<Row>, limit: nat, cursor: Option<string>)
    requires InListOrder(rows) && limit >= 1 && Matching(rows, cursor).Some?
    ensures var page, left := PageOf(rows, limit, cursor), Left(rows, cursor);
            && (page.nextCursor.Some? <==> |left| > limit && left[limit - 1].publishedAt.Some?)
            && page.items == (if |left| > limit then left[..limit] else left)
            && (page.nextCursor.Some? ==>
                  Matching(rows, page.nextCursor).Some? && Left(rows, page.nextCursor) == left[limit..])
  {
    hide InListOrder, Matching, ListRecruiting, IsListed, CursorAfter;
    LeftIsTail(rows, cursor);
    var left := Left(rows, cursor);
    var start := |rows| - |left|;
    TailIsListed(rows, start);
    PageOfMatching(rows, limit, cursor, left);
    NextCursorContinues(rows, start, limit);
    assert |left| > limit ==> left[limit..] == rows[start + limit..];
  }

  /** The surveys seen by asking for page after page, the k-th of them with
      `limits(k)`, until there is no next cursor. */
  ghost function Follow(rows: seq<Row>, cursor: Option<string>, limits: nat -> nat, k: nat): seq<Row>
    requires InListOrder(rows) && Matching(rows, cursor).Some? && forall i :: limits(i) >= 1
    decreases |Left(rows, cursor)|
  {
    hide InListOrder, PageOf, Left, Matching;
    var page := PageOf(rows, limits(k), cursor);
    PageContinues(rows, limits(k), cursor);
    if page.nextCursor == None then page.items
    else page.items + Follow(rows, page.nextCursor, limits, k + 1)
  }

  /** When no row that is left lacks a publication time, all of them are shown. */
  lemma {:induction false} FollowFromDated(rows: seq<Row>, cursor: Option<string>, limits: nat -> nat, k: nat)
    requires InListOrder(rows) && Matching(rows, cursor).Some? && forall i :: limits(i) >= 1
    requires forall row :: row in Left(rows, cursor) ==> row.publishedAt.Some?
    ensures Follow(rows, cursor, limits, k) == Left(rows, cursor)
    decreases |Left(rows, cursor)|
  {
    hide InListOrder, PageOf, Left, Matching;
    var page, left, limit := PageOf(rows, limits(k), cursor), Left(rows, cursor), limits(k);
    PageContinues(rows, limit, cursor);
    if page.nextCursor.Some? {
      FollowFromDated(rows, page.nextCursor, limits, k + 1);
      assert left[..limit] + left[limit..] == left;
    }
  }

  lemma DatedStayDated(rows: seq<Row>, i: nat)
    requires InListOrder(rows) && i < |rows| && rows[i].publishedAt.Some?
    ensures forall j :: i <= j < |rows| ==> rows[j].publishedAt.Some?
  {
    hide KstDate.LexLess, IsListed;
    forall j | i < j < |rows|
      ensures rows[j].publishedAt.Some?
    {
      assert Before(rows[i], rows[j]);
    }
  }

  lemma NoCursorLeavesAll(rows: seq<Row>)
    ensures Matching(rows, None) == Some(rows) && Left(rows, None) == rows
  {
  }

  ghost predicate NoneTwice(rows: seq<Row>) {
    forall i, j :: 0 <= i < j < |rows| ==> rows[i] != rows[j]
  }

  lemma ListedOnce(rows: seq<Row>, n: nat)
    requires InListOrder(rows)
    ensures NoneTwice(rows) && (n <= |rows| ==> NoneTwice(rows[..n]))
  {
    hide KstDate.LexLess, IsListed;
    forall i, j | 0 <= i < j < |rows|
      ensures rows[i] != rows[j]
    {
      assert Before(rows[i], rows[j]);
      KstDate.LexIsIrreflexive(rows[i].id);
    }
  }

  /** No survey is shown twice.  Following the cursors shows every survey, in list order,
      exactly when the first page reaches past the surveys without a publication
      time or holds everything.  Otherwise it stops after the first page. */
  lemma FollowingShowsAll(rows: seq<Row>, limits: nat -> nat)
    requires InListOrder(rows) && forall i :: limits(i) >= 1
    ensures Matching(rows, None) == Some(rows)
    ensures NoneTwice(Follow(rows, None, limits, 0))
    ensures Follow(rows, None, limits, 0) == rows
       <==> |rows| <= limits(0) || rows[limits(0) - 1].publishedAt.Some?
    ensures Follow(rows, None, limits, 0) != rows ==> Follow(rows, None, limits, 0) == rows[..limits(0)]
  {
    NoCursorLeavesAll(rows);
    hide InListOrder, PageOf, Left, Matching, NoneTwice;
    var limit := limits(0);
    ListedOnce(rows, limit);
    PageContinues(rows, limit, None);
    var page := PageOf(rows, limit, None);
    if page.nextCursor.Some? {
      DatedStayDated(rows, limit - 1);
      FollowFromDated(rows, page.nextCursor, limits, 1);
      assert rows[..limit] + rows[limit..] == rows;
    }
  }

  /** While every recruiting survey has a publication time, nothing is missed. */
  lemma PublishedSurveysAreAllShown(rows: seq<Row>, limits: nat -> nat)
    requires InListOrder(rows) && forall i :: limits(i) >= 1
    requires forall i :: 0 <= i < |rows| ==> rows[i].publishedAt.Some?
    ensures Matching(rows, None) == Some(rows) && Follow(rows, None, limits, 0) == rows
  {
    hide InListOrder, Follow;
    FollowingShowsAll(rows, limits);
  }

  /** A restored survey without a publication time comes first; on a page of one
      it is the only survey ever shown. */
  lemma UndatedSurveyEndsTheList()
    ensures var rows := [Row("a", None), Row("b", Some(0))];
            InListOrder(rows) && Matching(rows, None) == Some(rows) && Follow(rows, None, _ => 1, 0) == rows[..1]
  {
    hide Follow, Matching, IsListed, NoneTwice;
    var rows := [Row("a", None), Row("b", Some(0))];
    FirstDayIsListed();
    FollowingShowsAll(rows, _ => 1);
    assert |rows| == 2;
  }

  lemma FirstDayIsListed()
    ensures IsListed(Row("a", None)) && IsListed(Row("b", Some(0)))
  {
    FirstDayHasIsoTime();
    hide HasIsoTime;
  }

  lemma FirstDayHasIsoTime()
    ensures HasIsoTime(0)
  {
    FirstDay();
    hide Calendar.MakeDay, Calendar.FromDay;
    Calendar.FromDayOfMakeDay(Calendar.Civil(1970, 1, 1));
  }

  lemma FirstDay()
    ensures Calendar.MakeDay(1970, 1, 1) == 0 && Calendar.RealDate(Calendar.Civil(1970, 1, 1))
  {
    assert Calendar.DayFromYear(1970) == 0;
    assert Calendar.MonthStart(1970, 1) == 0 && Calendar.MonthStart(1970, 2) == 31;
  }
}
