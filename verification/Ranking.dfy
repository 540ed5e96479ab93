/** Weekly ranking: the admin console's ranking (src/admin/admin-ranking.util.ts,
    src/admin/admin-rewards.service.ts), the public board
    (src/leaderboard/leaderboard.service.ts) and the rank shown after a
    submission (src/response/response.service.ts). */
module Ranking {
  import opened Options

  type UserId = string

  /** The columns of a user that decide who may win or be shown. */
  datatype Account = Account(active: bool, isAdmin: bool, isStaff: bool)

  /** One user's unrevoked points of a week; `lastActiveAt` is the latest award. */
  datatype Group = Group(userId: UserId, points: int, lastActiveAt: int)

  datatype Row = Row(userId: UserId, points: int, lastActiveAt: int, account: Account)

  datatype RankedRow = RankedRow(row: Row, rank: nat)

  // ---------------------------------------------------------------- sorting

  /** `a` belongs strictly above `b`: more points, or as many reached earlier. */
  predicate Above(a: Row, b: Row) {
    a.points > b.points || (a.points == b.points && a.lastActiveAt < b.lastActiveAt)
  }

  predicate Ordered(rows: seq<Row>) {
    forall i, j :: 0 <= i < j < |rows| ==> !Above(rows[j], rows[i])
  }

  function Insert(x: Row, rows: seq<Row>): seq<Row> {
    if rows == [] || !Above(rows[0], x) then [x] + rows else [rows[0]] + Insert(x, rows[1..])
  }

  /** Array.prototype.sort, which is stable: rows that tie keep their order. */
  function Sort(rows: seq<Row>): seq<Row> {
    if rows == [] then [] else Insert(rows[0], Sort(rows[1..]))
  }

  function Filter(keep: Row -> bool, rows: seq<Row>): seq<Row> {
    if rows == [] then []
    else if keep(rows[0]) then [rows[0]] + Filter(keep, rows[1..])
    else Filter(keep, rows[1..])
  }

  lemma {:induction false} InsertKeepsOrder(x: Row, rows: seq<Row>)
    requires Ordered(rows)
    ensures Ordered(Insert(x, rows)) && multiset(Insert(x, rows)) == multiset(rows) + multiset{x}
  {
    if rows == [] || !Above(rows[0], x) {
    } else {
      assert rows == [rows[0]] + rows[1..];
      InsertKeepsOrder(x, rows[1..]);
      forall r | r in Insert(x, rows[1..])
        ensures !Above(r, rows[0])
      {
        assert r in multiset(Insert(x, rows[1..]));
        assert r == x || r in rows[1..];
      }
    }
  }

  lemma {:induction false} SortSorts(rows: seq<Row>)
    ensures Ordered(Sort(rows)) && multiset(Sort(rows)) == multiset(rows)
  {
    if rows != [] {
      SortSorts(rows[1..]);
      InsertKeepsOrder(rows[0], Sort(rows[1..]));
      assert rows == [rows[0]] + rows[1..];
    }
  }

  /** Sorting rows that are in order changes nothing. */
  lemma {:induction false} SortOfOrdered(rows: seq<Row>)
    requires Ordered(rows)
    ensures Sort(rows) == rows
  {
    if rows != [] {
      SortOfOrdered(rows[1..]);
      assert rows == [rows[0]] + rows[1..];
    }
  }

  lemma {:induction false} FilterOfInsert(keep: Row -> bool, x: Row, rows: seq<Row>)
    requires Ordered(rows)
    ensures Filter(keep, Insert(x, rows))
         == if keep(x) then Insert(x, Filter(keep, rows)) else Filter(keep, rows)
  {
    if rows != [] && Above(rows[0], x) {
      FilterOfInsert(keep, x, rows[1..]);
      assert Insert(x, rows)[1..] == Insert(x, rows[1..]);
    } else {
      assert Insert(x, rows)[1..] == rows;
      if keep(x) {
        InsertBeforeAll(keep, x, rows);
      }
    }
  }

  lemma {:induction false} InsertBeforeAll(keep: Row -> bool, x: Row, rows: seq<Row>)
    requires Ordered(rows) && (rows != [] ==> !Above(rows[0], x))
    ensures Insert(x, Filter(keep, rows)) == [x] + Filter(keep, rows)
  {
    if rows != [] && !keep(rows[0]) {
      assert rows[1..] != [] ==> !Above(rows[1], rows[0]);
      InsertBeforeAll(keep, x, rows[1..]);
    }
  }

  /** Dropping rows before or after sorting leaves the same list. */
  lemma {:induction false} FilterOfSort(keep: Row -> bool, rows: seq<Row>)
    ensures Sort(Filter(keep, rows)) == Filter(keep, Sort(rows))
  {
    if rows != [] {
      FilterOfSort(keep, rows[1..]);
      SortSorts(rows[1..]);
      FilterOfInsert(keep, rows[0], Sort(rows[1..]));
    }
  }

  // ---------------------------------------------------------------- ranks

  /** How many rows have strictly more points. */
  function Higher(rows: seq<Row>, points: int): nat {
    if rows == [] then 0
    else (if rows[0].points > points then 1 else 0) + Higher(rows[1..], points)
  }

  /** The competition rank 1, 2, 2, 4: one more than the number of rows ahead. */
  function Annotate(sorted: seq<Row>): (ranked: seq<RankedRow>)
    ensures |ranked| == |sorted|
    ensures forall i :: 0 <= i < |sorted| ==> ranked[i] == RankedRow(sorted[i], 1 + Higher(sorted, sorted[i].points))
  {
    seq(|sorted|, i requires 0 <= i < |sorted| => RankedRow(sorted[i], 1 + Higher(sorted, sorted[i].points)))
  }

  function Ranked(rows: seq<Row>): seq<RankedRow> {
    Annotate(Sort(rows))
  }

  function RowsOf(ranked: seq<RankedRow>): (rows: seq<Row>)
    ensures |rows| == |ranked|
  {
    seq(|ranked|, i requires 0 <= i < |ranked| => ranked[i].row)
  }

  lemma {:induction false} HigherOfConcat(a: seq<Row>, b: seq<Row>, points: int)
    ensures Higher(a + b, points) == Higher(a, points) + Higher(b, points)
  {
    if a == [] {
      assert a + b == b;
    } else {
      assert (a + b)[1..] == a[1..] + b;
      HigherOfConcat(a[1..], b, points);
    }
  }

  lemma {:induction false} AllHigher(rows: seq<Row>, points: int)
    ensures (forall i :: 0 <= i < |rows| ==> rows[i].points > points) ==> Higher(rows, points) == |rows|
    ensures (forall i :: 0 <= i < |rows| ==> rows[i].points <= points) ==> Higher(rows, points) == 0
  {
    if rows != [] {
      AllHigher(rows[1..], points);
    }
  }

  /** In an ordered list the rows ahead are the ones before the tie group. */
  lemma HigherIsGroupStart(sorted: seq<Row>, i: nat)
    requires Ordered(sorted) && i < |sorted|
    requires i == 0 || sorted[i - 1].points != sorted[i].points
    ensures Higher(sorted, sorted[i].points) == i
  {
    GroupStartSplits(sorted, i);
    assert sorted == sorted[..i] + sorted[i..];
    hide Higher, Ordered;
    HigherOfSplit(sorted[..i], sorted[i..], sorted[i].points);
  }

  lemma HigherOfSplit(ahead: seq<Row>, rest: seq<Row>, points: int)
    requires forall k :: 0 <= k < |ahead| ==> ahead[k].points > points
    requires forall k :: 0 <= k < |rest| ==> rest[k].points <= points
    ensures Higher(ahead + rest, points) == |ahead|
  {
    hide Higher;
    HigherOfConcat(ahead, rest, points);
    AllHigher(ahead, points);
    AllHigher(rest, points);
  }

  lemma GroupStartSplits(sorted: seq<Row>, i: nat)
    requires Ordered(sorted) && i < |sorted|
    requires i == 0 || sorted[i - 1].points != sorted[i].points
    ensures forall k :: 0 <= k < i ==> sorted[k].points > sorted[i].points
    ensures forall k :: i <= k < |sorted| ==> sorted[k].points <= sorted[i].points
  {
    forall k | 0 <= k < i
      ensures sorted[k].points > sorted[i].points
    {
      assert !Above(sorted[i - 1], sorted[k]) && !Above(sorted[i], sorted[i - 1]);
    }
    forall k | i < k < |sorted|
      ensures sorted[k].points <= sorted[i].points
    {
      assert !Above(sorted[k], sorted[i]);
    }
  }

  /** The ranking pass shared by rankRows and the public board. */
  method RankSorted(sorted: seq<Row>) returns (ranked: seq<RankedRow>)
    requires Ordered(sorted)
    ensures ranked == Annotate(sorted)
  {
    ranked := [];
    var rank, prevPoints := 0, None;
    for index := 0 to |sorted|
      invariant |ranked| == index
      invariant index == 0 ==> prevPoints == None
      invariant index > 0 ==> prevPoints == Some(sorted[index - 1].points)
                              && rank == 1 + Higher(sorted, sorted[index - 1].points)
      invariant forall i :: 0 <= i < index ==> ranked[i] == Annotate(sorted)[i]
    {
      if prevPoints != Some(sorted[index].points) {
        HigherIsGroupStart(sorted, index);
        rank := index + 1;
        prevPoints := Some(sorted[index].points);
      }
      ranked := ranked + [RankedRow(sorted[index], rank)];
    }
  }

  /** rankRows. */
  method RankRows(rows: seq<Row>) returns (ranked: seq<RankedRow>)
    ensures ranked == Ranked(rows)
    ensures forall i, j :: 0 <= i < j < |ranked| ==>
              || ranked[i].row.points > ranked[j].row.points
              || (ranked[i].row.points == ranked[j].row.points
                  && ranked[i].row.lastActiveAt <= ranked[j].row.lastActiveAt)
  {
    SortSorts(rows);
    OrderInColumns(Sort(rows));
    ranked := RankSorted(Sort(rows));
  }

  lemma OrderInColumns(rows: seq<Row>)
    requires Ordered(rows)
    ensures forall i, j :: 0 <= i < j < |rows| ==>
              || rows[i].points > rows[j].points
              || (rows[i].points == rows[j].points && rows[i].lastActiveAt <= rows[j].lastActiveAt)
  {
  }

  lemma {:induction false} HigherOfInsert(x: Row, rows: seq<Row>, points: int)
    ensures Higher(Insert(x, rows), points) == (if x.points > points then 1 else 0) + Higher(rows, points)
  {
    if rows != [] && Above(rows[0], x) {
      HigherOfInsert(x, rows[1..], points);
      assert Insert(x, rows)[1..] == Insert(x, rows[1..]);
    } else {
      assert Insert(x, rows)[1..] == rows;
    }
  }

  lemma {:induction false} HigherOfSort(rows: seq<Row>, points: int)
    ensures Higher(Sort(rows), points) == Higher(rows, points)
  {
    if rows != [] {
      HigherOfSort(rows[1..], points);
      HigherOfInsert(rows[0], Sort(rows[1..]), points);
    }
  }

  /** The rows ahead, counted. */
  lemma {:induction false} HigherCounts(rows: seq<Row>, points: int)
    ensures Higher(rows, points) == |set k | 0 <= k < |rows| && rows[k].points > points|
    decreases |rows|
  {
    if rows != [] {
      var n := |rows| - 1;
      var front := rows[..n];
      HigherCounts(front, points);
      assert rows == front + [rows[n]];
      HigherOfConcat(front, [rows[n]], points);
      assert Higher([rows[n]], points) == if rows[n].points > points then 1 else 0;
      var ahead := set k | 0 <= k < n && front[k].points > points;
      assert (set k | 0 <= k < |rows| && rows[k].points > points)
          == if rows[n].points > points then ahead + {n} else ahead;
    }
  }

  /** The list printed: every row appears once, with one more than the number of
      rows that have strictly more points; more points come first, and as many
      points in the order they were reached. */
  lemma RankMeaning(rows: seq<Row>, i: nat)
    requires i < |Ranked(rows)|
    ensures multiset(RowsOf(Ranked(rows))) == multiset(rows)
    ensures var mine := Ranked(rows)[i].row.points;
            Ranked(rows)[i].rank == 1 + |set k | 0 <= k < |rows| && rows[k].points > mine|
    ensures forall j :: i < j < |Ranked(rows)| ==>
              var a, b := Ranked(rows)[i].row, Ranked(rows)[j].row;
              a.points > b.points || (a.points == b.points && a.lastActiveAt <= b.lastActiveAt)
  {
    SortSorts(rows);
    HigherOfSort(rows, Ranked(rows)[i].row.points);
    HigherCounts(rows, Ranked(rows)[i].row.points);
    OrderInColumns(Sort(rows));
    assert RowsOf(Ranked(rows)) == Sort(rows);
  }

  // ---------------------------------------------------------------- ties keep their order

  lemma {:induction false} InsertPosition(x: Row, rows: seq<Row>) returns (p: nat)
    requires Ordered(rows)
    ensures p <= |rows| && Insert(x, rows) == rows[..p] + [x] + rows[p..]
    ensures forall k :: 0 <= k < p ==> Above(rows[k], x)
    ensures forall k :: p <= k < |rows| ==> !Above(rows[k], x)
  {
    if rows == [] || !Above(rows[0], x) {
      p := 0;
      forall k | 0 <= k < |rows|
        ensures !Above(rows[k], x)
      {
        assert k > 0 ==> !Above(rows[k], rows[0]);
      }
    } else {
      var q := InsertPosition(x, rows[1..]);
      p := q + 1;
      assert rows == [rows[0]] + rows[1..] && rows[..p] == [rows[0]] + rows[1..][..q] && rows[p..] == rows[1..][q..];
      assert forall k :: 1 <= k < |rows| ==> rows[k] == rows[1..][k - 1];
    }
  }

  /** `from` tells where each row of `sorted` stood in `rows`; rows that tie in both
      columns kept their order. */
  ghost predicate StableOrder(sorted: seq<Row>, rows: seq<Row>, from: seq<nat>) {
    && |from| == |sorted| == |rows|
    && (forall i :: 0 <= i < |from| ==> from[i] < |rows| && sorted[i] == rows[from[i]])
    && (forall i, j :: 0 <= i < j < |from| ==>
          && from[i] != from[j]
          && (sorted[i].points == sorted[j].points && sorted[i].lastActiveAt == sorted[j].lastActiveAt ==>
                from[i] < from[j]))
  }

  lemma {:induction false} SortIsStable(rows: seq<Row>) returns (from: seq<nat>)
    ensures StableOrder(Sort(rows), rows, from)
  {
    if rows == [] {
      from := [];
    } else {
      var x, rest := rows[0], rows[1..];
      var before := SortIsStable(rest);
      SortSorts(rest);
      var p := InsertPosition(x, Sort(rest));
      SortStep(rows);
      assert |before| == |Sort(rest)|;
      hide Sort, Insert, Ordered, StableOrder, OriginsAfter, Above;
      from := OriginsAfter(before, p);
      InsertKeepsStable(x, rest, Sort(rest), before, p);
      assert rows == [x] + rest;
    }
  }

  lemma SortStep(rows: seq<Row>)
    requires rows != []
    ensures Sort(rows) == Insert(rows[0], Sort(rows[1..]))
  {
  }

  /** The origins once the row in front has been inserted at `p`. */
  ghost function OriginsAfter(before: seq<nat>, p: nat): (from: seq<nat>)
    requires p <= |before|
    ensures |from| == |before| + 1 && from[p] == 0
    ensures forall i :: 0 <= i < p ==> from[i] == before[i] + 1
    ensures forall i :: p < i < |from| ==> from[i] == before[i - 1] + 1
  {
    seq(|before| + 1, i requires 0 <= i <= |before| =>
      if i < p then before[i] + 1 else if i == p then 0 else before[i - 1] + 1)
  }

  /** The row at `i` after the insertion, and where it stood. */
  lemma InsertedRow(x: Row, sorted: seq<Row>, before: seq<nat>, p: nat, i: nat)
    requires |before| == |sorted| && p <= |sorted| && i <= |sorted|
    ensures var all, from := sorted[..p] + [x] + sorted[p..], OriginsAfter(before, p);
            if i == p then all[i] == x && from[i] == 0
            else
              var a := if i < p then i else i - 1;
              all[i] == sorted[a] && from[i] == before[a] + 1
  {
    hide OriginsAfter;
  }

  lemma InsertKeepsStable(x: Row, rest: seq<Row>, sorted: seq<Row>, before: seq<nat>, p: nat)
    requires StableOrder(sorted, rest, before) && p <= |sorted|
    requires forall k :: 0 <= k < p ==> Above(sorted[k], x)
    ensures StableOrder(sorted[..p] + [x] + sorted[p..], [x] + rest, OriginsAfter(before, p))
  {
    hide OriginsAfter;
    var all, from, rows := sorted[..p] + [x] + sorted[p..], OriginsAfter(before, p), [x] + rest;
    forall i | 0 <= i < |from|
      ensures from[i] < |rows| && all[i] == rows[from[i]]
    {
      InsertedRow(x, sorted, before, p, i);
      if i != p {
        var a := if i < p then i else i - 1;
        assert sorted[a] == rest[before[a]];
      }
    }
    forall i, j | 0 <= i < j < |from|
      ensures from[i] != from[j]
      ensures all[i].points == all[j].points && all[i].lastActiveAt == all[j].lastActiveAt ==> from[i] < from[j]
    {
      InsertedOrder(x, rest, sorted, before, p, i, j);
    }
  }

  lemma InsertedOrder(x: Row, rest: seq<Row>, sorted: seq<Row>, before: seq<nat>, p: nat, i: nat, j: nat)
    requires StableOrder(sorted, rest, before) && p <= |sorted| && i < j <= |sorted|
    requires forall k :: 0 <= k < p ==> Above(sorted[k], x)
    ensures var all, from := sorted[..p] + [x] + sorted[p..], OriginsAfter(before, p);
            && from[i] != from[j]
            && (all[i].points == all[j].points && all[i].lastActiveAt == all[j].lastActiveAt ==> from[i] < from[j])
  {
    hide OriginsAfter;
    InsertedRow(x, sorted, before, p, i);
    InsertedRow(x, sorted, before, p, j);
    if j == p {
      assert Above(sorted[i], x);
    } else if i != p {
      var a, b := if i < p then i else i - 1, if j < p then j else j - 1;
      assert before[a] != before[b];
    }
  }

  /** Rows with as many points, reached at the same time, stay in the order in
      which they came. */
  lemma TiesKeepTheirOrder(rows: seq<Row>) returns (from: seq<nat>)
    ensures |from| == |Ranked(rows)| == |rows|
    ensures forall i :: 0 <= i < |from| ==> from[i] < |rows| && Ranked(rows)[i].row == rows[from[i]]
    ensures forall i, j :: 0 <= i < j < |from| ==>
              var a, b := Ranked(rows)[i].row, Ranked(rows)[j].row;
              from[i] != from[j] && (a.points == b.points && a.lastActiveAt == b.lastActiveAt ==> from[i] < from[j])
  {
    from := SortIsStable(rows);
    hide Sort, Higher;
  }

  lemma RankedRowsAreRows(rows: seq<Row>, i: nat)
    requires i < |Ranked(rows)|
    ensures Ranked(rows)[i].row in rows
  {
    hide Sort, Higher;
    SortSorts(rows);
    assert Ranked(rows)[i].row in multiset(Sort(rows));
    assert Ranked(rows)[i].row in multiset(rows);
  }

  // ---------------------------------------------------------------- the weekly ranking

  /** The query groups by user. */
  ghost predicate OneGroupPerUser(groups: seq<Group>) {
    forall i, j :: 0 <= i < j < |groups| ==> groups[i].userId != groups[j].userId
  }

  /** The row of a group, if its user exists and it has points. */
  function RowOf(group: Group, users: map<UserId, Account>): Option<Row> {
    if group.userId in users && group.points > 0
    then Some(Row(group.userId, group.points, group.lastActiveAt, users[group.userId]))
    else None
  }

  function JoinRows(groups: seq<Group>, users: map<UserId, Account>): seq<Row> {
    if groups == [] then []
    else
      var rest := JoinRows(groups[..|groups| - 1], users);
      match RowOf(groups[|groups| - 1], users)
      case None => rest
      case Some(row) => rest + [row]
  }

  /** getWeeklyRanking, after its queries. */
  method WeeklyRanking(groups: seq<Group>, users: map<UserId, Account>) returns (ranked: seq<RankedRow>)
    ensures ranked == Ranked(JoinRows(groups, users))
  {
    var rows := [];
    for i := 0 to |groups|
      invariant rows == JoinRows(groups[..i], users)
    {
      assert groups[..i + 1][..i] == groups[..i];
      var g := groups[i];
      if g.userId !in users || g.points <= 0 {
        continue;
      }
      rows := rows + [Row(g.userId, g.points, g.lastActiveAt, users[g.userId])];
    }
    assert groups[..|groups|] == groups;
    ranked := RankRows(rows);
  }

  datatype Role = ADMIN | STAFF | USER

  /** memberRole: an account that is both admin and staff counts as admin. */
  function MemberRole(account: Account): Role {
    if account.isAdmin then ADMIN else if account.isStaff then STAFF else USER
  }

  predicate EligibleRow(row: Row) {
    row.account.active && MemberRole(row.account) != STAFF
  }

  /** eligibleRanking: who can be rewarded, ranked among themselves. */
  function EligibleRanking(ranking: seq<RankedRow>): seq<RankedRow> {
    Ranked(Filter(EligibleRow, RowsOf(ranking)))
  }

  // ---------------------------------------------------------------- the public board

  const LEADERBOARD_MAX_ENTRIES := 50

  predicate PublicRow(row: Row) {
    row.account.active && !row.account.isStaff
  }

  function Prefix<T>(s: seq<T>, n: nat): seq<T> {
    if n <= |s| then s[..n] else s
  }

  /** The scores the board shows: of active accounts outside the staff, with points. */
  function VisibleRows(groups: seq<Group>, users: map<UserId, Account>): seq<Row> {
    if groups == [] then []
    else
      var n := |groups| - 1;
      var g := groups[n];
      var rest := VisibleRows(groups[..n], users);
      if g.userId in users && users[g.userId].active && !users[g.userId].isStaff && g.points > 0
      then rest + [Row(g.userId, g.points, g.lastActiveAt, users[g.userId])] else rest
  }

  lemma {:induction false} FilterOfSnoc(keep: Row -> bool, rows: seq<Row>, x: Row)
    ensures Filter(keep, rows + [x]) == Filter(keep, rows) + if keep(x) then [x] else []
  {
    if rows == [] {
      assert rows + [x] == [x] && Filter(keep, [x][1..]) == [];
    } else {
      assert (rows + [x])[1..] == rows[1..] + [x];
      FilterOfSnoc(keep, rows[1..], x);
    }
  }

  /** They are the public ones among the rows of the admin ranking. */
  lemma {:induction false} VisibleRowsArePublic(groups: seq<Group>, users: map<UserId, Account>)
    ensures VisibleRows(groups, users) == Filter(PublicRow, JoinRows(groups, users))
    decreases |groups|
  {
    if groups != [] {
      var n := |groups| - 1;
      VisibleRowsArePublic(groups[..n], users);
      var row := RowOf(groups[n], users);
      if row.Some? {
        FilterOfSnoc(PublicRow, JoinRows(groups[..n], users), row.value);
      }
    }
  }

  /** getRankedRows: the board is cut before its rows are ranked. */
  method PublicBoard(groups: seq<Group>, users: map<UserId, Account>) returns (ranked: seq<RankedRow>)
    ensures ranked == Board(JoinRows(groups, users), LEADERBOARD_MAX_ENTRIES)
    ensures |ranked| <= 50
    ensures forall i, j :: 0 <= i < j < |ranked| ==>
              || ranked[i].row.points > ranked[j].row.points
              || (ranked[i].row.points == ranked[j].row.points
                  && ranked[i].row.lastActiveAt <= ranked[j].row.lastActiveAt)
  {
    var rows := VisibleRows(groups, users);
    VisibleRowsArePublic(groups, users);
    var sorted := Prefix(Sort(rows), LEADERBOARD_MAX_ENTRIES);
    SortSorts(rows);
    OrderInColumns(sorted);
    ranked := RankSorted(sorted);
  }

  function Board(rows: seq<Row>, limit: nat): seq<RankedRow> {
    Annotate(Prefix(Sort(Filter(PublicRow, rows)), limit))
  }

  lemma {:induction false} VisibleExactly(groups: seq<Group>, users: map<UserId, Account>, row: Row)
    ensures row in VisibleRows(groups, users)
       <==> && row.userId in users && row.account == users[row.userId]
            && row.account.active && !row.account.isStaff && row.points > 0
            && Group(row.userId, row.points, row.lastActiveAt) in groups
    decreases |groups|
  {
    if groups != [] {
      var n := |groups| - 1;
      assert groups == groups[..n] + [groups[n]];
      VisibleExactly(groups[..n], users, row);
    }
  }

  /** What the board shows, whatever its limit: no more rows than that, in order,
      each the points of an active account outside the staff; and whoever is
      missing has no points, or no more than anybody on a full board, and not as
      many reached earlier. */
  lemma BoardMeaning(groups: seq<Group>, users: map<UserId, Account>, limit: nat)
    ensures var board := RowsOf(Board(JoinRows(groups, users), limit));
            && |board| <= limit
            && (forall i, j :: 0 <= i < j < |board| ==>
                  || board[i].points > board[j].points
                  || (board[i].points == board[j].points && board[i].lastActiveAt <= board[j].lastActiveAt))
            && (forall row :: row in board ==>
                  && row.userId in users && row.account == users[row.userId]
                  && row.account.active && !row.account.isStaff && row.points > 0
                  && Group(row.userId, row.points, row.lastActiveAt) in groups)
            && (forall g :: g in groups && g.userId in users && g.points > 0 ==>
                  var account := users[g.userId];
                  account.active && !account.isStaff && Row(g.userId, g.points, g.lastActiveAt, account) !in board ==>
                    && |board| == limit
                    && forall row :: row in board ==>
                         row.points > g.points || (row.points == g.points && row.lastActiveAt <= g.lastActiveAt))
  {
    var rows := VisibleRows(groups, users);
    VisibleRowsArePublic(groups, users);
    var sorted, board := Sort(rows), RowsOf(Board(JoinRows(groups, users), limit));
    assert board == Prefix(sorted, limit);
    SortSorts(rows);
    OrderInColumns(sorted);
    hide Sort, Higher, Ordered, Board, JoinRows, VisibleRows, Above, RowsOf;
    forall row
      ensures row in sorted
         <==> && row.userId in users && row.account == users[row.userId]
              && row.account.active && !row.account.isStaff && row.points > 0
              && Group(row.userId, row.points, row.lastActiveAt) in groups
    {
      assert row in sorted <==> row in multiset(sorted);
      VisibleExactly(groups, users, row);
    }
    PrefixOfOrdered(sorted, limit);
  }

  lemma PrefixOfOrdered(sorted: seq<Row>, limit: nat)
    requires forall i, j :: 0 <= i < j < |sorted| ==>
               || sorted[i].points > sorted[j].points
               || (sorted[i].points == sorted[j].points && sorted[i].lastActiveAt <= sorted[j].lastActiveAt)
    ensures forall row :: row in Prefix(sorted, limit) ==> row in sorted
    ensures forall late, row :: late in sorted && late !in Prefix(sorted, limit) && row in Prefix(sorted, limit) ==>
              |sorted| > limit
              && (row.points > late.points || (row.points == late.points && row.lastActiveAt <= late.lastActiveAt))
  {
    forall k | 0 <= k < |sorted| && k < limit
      ensures sorted[k] in Prefix(sorted, limit)
    {
      assert Prefix(sorted, limit)[k] == sorted[k];
    }
    forall late, row | late in sorted && late !in Prefix(sorted, limit) && row in Prefix(sorted, limit)
      ensures |sorted| > limit
      ensures row.points > late.points || (row.points == late.points && row.lastActiveAt <= late.lastActiveAt)
    {
      var j :| 0 <= j < |sorted| && sorted[j] == late;
      var i :| 0 <= i < |Prefix(sorted, limit)| && Prefix(sorted, limit)[i] == row;
      assert sorted[i] == row;
    }
  }

  lemma {:induction false} FilterIsSubset(keep: Row -> bool, rows: seq<Row>)
    ensures forall r :: r in Filter(keep, rows) <==> r in rows && keep(r)
  {
    if rows != [] {
      FilterIsSubset(keep, rows[1..]);
    }
  }

  /** Cutting an ordered list does not change the ranks of the rows it keeps. */
  lemma CutKeepsRanks(sorted: seq<Row>, limit: nat)
    requires Ordered(sorted)
    ensures Annotate(Prefix(sorted, limit)) == Prefix(Annotate(sorted), limit)
  {
    hide Higher, Ordered;
    if limit <= |sorted| {
      forall i | 0 <= i < limit
        ensures Higher(sorted[..limit], sorted[i].points) == Higher(sorted, sorted[i].points)
      {
        CutKeepsHigher(sorted, limit, i);
      }
    }
  }

  lemma CutKeepsHigher(sorted: seq<Row>, limit: nat, i: nat)
    requires Ordered(sorted) && i < limit <= |sorted|
    ensures Higher(sorted[..limit], sorted[i].points) == Higher(sorted, sorted[i].points)
  {
    hide Higher;
    var rest := sorted[limit..];
    assert sorted == sorted[..limit] + rest;
    HigherOfConcat(sorted[..limit], rest, sorted[i].points);
    forall k | 0 <= k < |rest|
      ensures rest[k].points <= sorted[i].points
    {
      assert !Above(sorted[limit + k], sorted[i]);
    }
    AllHigher(rest, sorted[i].points);
  }

  lemma {:induction false} FilterTwice(outer: Row -> bool, inner: Row -> bool, rows: seq<Row>)
    requires forall r :: outer(r) ==> inner(r)
    ensures Filter(outer, Filter(inner, rows)) == Filter(outer, rows)
  {
    if rows != [] {
      FilterTwice(outer, inner, rows[1..]);
      if inner(rows[0]) {
        assert Filter(inner, rows)[1..] == Filter(inner, rows[1..]);
      }
    }
  }

  lemma PrefixOfCons(x: Row, rows: seq<Row>, n: nat)
    requires n > 0
    ensures Prefix([x] + rows, n) == [x] + Prefix(rows, n - 1)
  {
  }

  /** A filter leaves the first `n` rows as they are exactly when it keeps each of them. */
  lemma {:induction false} FilterPrefix(keep: Row -> bool, rows: seq<Row>, n: nat)
    ensures Prefix(Filter(keep, rows), n) == Prefix(rows, n) <==> forall r :: r in Prefix(rows, n) ==> keep(r)
    decreases rows
  {
    if rows != [] && n > 0 {
      var first, rest := rows[0], rows[1..];
      assert rows == [first] + rest;
      PrefixOfCons(first, rest, n);
      if keep(first) {
        FilterPrefix(keep, rest, n - 1);
        PrefixOfCons(first, Filter(keep, rest), n);
        SameTail(first, Prefix(Filter(keep, rest), n - 1), Prefix(rest, n - 1));
      } else {
        FirstIsDropped(keep, rows, n);
      }
    }
  }

  lemma FirstIsDropped(keep: Row -> bool, rows: seq<Row>, n: nat)
    requires rows != [] && n > 0 && !keep(rows[0])
    ensures rows[0] in Prefix(rows, n) && Prefix(Filter(keep, rows), n) != Prefix(rows, n)
  {
    FilterIsSubset(keep, rows);
    assert Prefix(rows, n)[0] == rows[0];
    assert forall r :: r in Prefix(Filter(keep, rows), n) ==> r in Filter(keep, rows);
  }

  lemma SameTail(x: Row, a: seq<Row>, b: seq<Row>)
    ensures [x] + a == [x] + b <==> a == b
  {
    assert ([x] + a)[1..] == a && ([x] + b)[1..] == b;
  }

  /** Public rows are eligible; the eligible rows that are not public are the
      active accounts that are both admin and staff. */
  lemma PublicRowsAreEligible()
    ensures forall r :: PublicRow(r) <==> EligibleRow(r) && !(r.account.isAdmin && r.account.isStaff)
  {
  }

  /** The public board shows the first rows of the eligible ranking, ranks
      included, exactly when none of those rows belongs to an account that is
      both admin and staff. */
  lemma BoardMatchesEligibleRanking(rows: seq<Row>, limit: nat)
    ensures var top := Prefix(EligibleRanking(Ranked(rows)), limit);
            Board(rows, limit) == top
            <==> forall i :: 0 <= i < |top| ==> !(top[i].row.account.isAdmin && top[i].row.account.isStaff)
  {
    hide EligibleRow, PublicRow, Filter, Sort, Higher, Ordered;
    SortSorts(rows);
    assert RowsOf(Ranked(rows)) == Sort(rows);
    FilterOfSort(EligibleRow, rows);
    var eligible := Filter(EligibleRow, Sort(rows));
    SortSorts(Filter(EligibleRow, rows));
    SortOfOrdered(eligible);
    FilterOfSort(PublicRow, rows);
    PublicRowsAreEligible();
    FilterTwice(PublicRow, EligibleRow, Sort(rows));
    FilterPrefix(PublicRow, eligible, limit);
    CutKeepsRanks(eligible, limit);
    FilterIsSubset(EligibleRow, Sort(rows));
    var top := Prefix(EligibleRanking(Ranked(rows)), limit);
    assert top == Annotate(Prefix(eligible, limit));
    AnnotateIsInjective(Prefix(eligible, limit), Prefix(Filter(PublicRow, eligible), limit));
    forall r | r in Prefix(eligible, limit)
      ensures PublicRow(r) <==> !(r.account.isAdmin && r.account.isStaff)
    {
      assert r in eligible;
    }
    assert forall i :: 0 <= i < |top| ==> top[i].row == Prefix(eligible, limit)[i];
  }

  lemma AnnotateIsInjective(a: seq<Row>, b: seq<Row>)
    ensures Annotate(a) == Annotate(b) <==> a == b
  {
    if Annotate(a) == Annotate(b) {
      assert RowsOf(Annotate(a)) == a && RowsOf(Annotate(b)) == b;
    }
  }

  /** One active account that is both admin and staff: the admins rank it, the
      board leaves it out. */
  lemma AdminOnStaffIsNotShown()
    ensures var rows := [Row("a", 1, 0, Account(true, true, true))];
            EligibleRanking(Ranked(rows)) == [RankedRow(rows[0], 1)] && Board(rows, LEADERBOARD_MAX_ENTRIES) == []
  {
    var rows := [Row("a", 1, 0, Account(true, true, true))];
    assert Filter(EligibleRow, rows) == rows && Filter(PublicRow, rows) == [];
    SortOfOrdered(rows);
    assert RowsOf(Ranked(rows)) == rows;
  }

  // ---------------------------------------------------------------- the rank after submitting

  function Find(groups: seq<Group>, userId: UserId): Option<Group> {
    if groups == [] then None
    else if groups[0].userId == userId then Some(groups[0])
    else Find(groups[1..], userId)
  }

  function HigherGroups(groups: seq<Group>, points: int): nat {
    if groups == [] then 0
    else (if groups[0].points > points then 1 else 0) + HigherGroups(groups[1..], points)
  }

  /** getWeeklyRank: one more than the users with strictly more points. */
  function WeeklyRank(groups: seq<Group>, userId: UserId): Option<nat> {
    var mine := Find(groups, userId);
    var myTotal := if mine == None then 0 else mine.value.points;
    if myTotal <= 0 then None else Some(HigherGroups(groups, myTotal) + 1)
  }

  lemma {:induction false} HigherGroupsSnoc(groups: seq<Group>, points: int)
    requires groups != []
    ensures var n := |groups| - 1;
            HigherGroups(groups, points)
            == HigherGroups(groups[..n], points) + (if groups[n].points > points then 1 else 0)
  {
    var n := |groups| - 1;
    if n > 0 {
      HigherGroupsSnoc(groups[1..], points);
      assert groups[1..][..n - 1] == groups[..n][1..];
    }
  }

  lemma {:induction false} JoinKeepsHigher(groups: seq<Group>, users: map<UserId, Account>, points: int)
    requires points >= 0 && forall g :: g in groups ==> g.userId in users
    ensures Higher(JoinRows(groups, users), points) == HigherGroups(groups, points)
  {
    if groups != [] {
      var n := |groups| - 1;
      JoinKeepsHigher(groups[..n], users, points);
      HigherGroupsSnoc(groups, points);
      if groups[n].points > 0 {
        HigherOfConcat(JoinRows(groups[..n], users), [RowOf(groups[n], users).value], points);
      }
    }
  }

  lemma {:induction false} FindMember(groups: seq<Group>, g: Group)
    requires g in groups
    requires OneGroupPerUser(groups)
    ensures Find(groups, g.userId) == Some(g)
  {
    if groups[0] != g {
      assert g in groups[1..];
      var k :| 0 <= k < |groups[1..]| && groups[1..][k] == g;
      assert groups[k + 1] == g;
      FindMember(groups[1..], g);
    }
  }

  lemma {:induction false} JoinedRow(groups: seq<Group>, users: map<UserId, Account>, row: Row)
    requires row in JoinRows(groups, users)
    ensures Group(row.userId, row.points, row.lastActiveAt) in groups && row.points > 0
  {
    var n := |groups| - 1;
    if row in JoinRows(groups[..n], users) {
      JoinedRow(groups[..n], users, row);
    }
  }

  lemma {:induction false} FindExactly(groups: seq<Group>, userId: UserId)
    ensures Find(groups, userId).Some? ==>
              Find(groups, userId).value in groups && Find(groups, userId).value.userId == userId
    ensures Find(groups, userId) == None ==> forall g :: g in groups ==> g.userId != userId
  {
    if groups != [] && groups[0].userId != userId {
      FindExactly(groups[1..], userId);
      assert groups == [groups[0]] + groups[1..];
    }
  }

  /** A rank is shown exactly to users with points. */
  lemma RankIsShownExactly(groups: seq<Group>, userId: UserId)
    requires OneGroupPerUser(groups)
    ensures WeeklyRank(groups, userId) != None <==> exists g :: g in groups && g.userId == userId && g.points > 0
  {
    FindExactly(groups, userId);
    if g :| g in groups && g.userId == userId && g.points > 0 {
      FindMember(groups, g);
    }
  }

  /** The rank shown after a submission is the rank of the admin ranking, for
      every user on it and whoever else is listed. */
  lemma SubmissionRankIsBoardRank(groups: seq<Group>, users: map<UserId, Account>, i: nat)
    requires forall g :: g in groups ==> g.userId in users
    requires OneGroupPerUser(groups)
    requires i < |Ranked(JoinRows(groups, users))|
    ensures var r := Ranked(JoinRows(groups, users))[i];
            WeeklyRank(groups, r.row.userId) == Some(r.rank)
  {
    hide JoinRows, Higher, HigherGroups, Sort, Find, Ordered;
    var rows := JoinRows(groups, users);
    var r := Ranked(rows)[i];
    RankMeaning(rows, i);
    HigherCounts(rows, r.row.points);
    RankedRowsAreRows(rows, i);
    JoinedRow(groups, users, r.row);
    FindMember(groups, Group(r.row.userId, r.row.points, r.row.lastActiveAt));
    JoinKeepsHigher(groups, users, r.row.points);
  }
}
